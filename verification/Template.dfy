/**
 The template parser of pkg/portal/template.go: one grammar read by three
 mutually recursive loops, and proof that it undoes printing at any depth.
 */
module Template {
  import opened Common

  datatype Node =
    | Text(text: string)
    | Var(path: string)
    | If(condition: string, invert: bool, thenBody: seq<Node>, elseBody: seq<Node>)
    | Each(collection: string, body: seq<Node>)

  // ---------------------------------------------------------------------
  // The string library calls it makes
  // ---------------------------------------------------------------------

  /** unicode.IsSpace. */
  predicate IsSpace(c: char) {
    c in "\t\n\U{000B}\U{000C}\r \U{0085}\U{00A0}\U{1680}\U{2028}\U{2029}\U{202F}\U{205F}\U{3000}"
    || '\U{2000}' <= c <= '\U{200A}'
  }

  function TrimLeft(s: string): string {
    if s != "" && IsSpace(s[0]) then TrimLeft(s[1..]) else s
  }

  function TrimRight(s: string): string {
    if s != "" && IsSpace(s[|s| - 1]) then TrimRight(s[..|s| - 1]) else s
  }

  function Trim(s: string): string {
    TrimRight(TrimLeft(s))
  }

  /** Where the first doubled c begins; |s| when there is none. */
  function Find(s: string, c: char): (i: nat)
    ensures i <= |s|
    ensures i < |s| ==> i + 2 <= |s| && s[i] == c && s[i + 1] == c
    ensures forall k :: 0 <= k < i && k + 1 < |s| ==> !(s[k] == c && s[k + 1] == c)
  {
    if |s| < 2 then |s|
    else if s[0] == c && s[1] == c then 0
    else 1 + Find(s[1..], c)
  }

  // ---------------------------------------------------------------------
  // The grammar
  // ---------------------------------------------------------------------

  /** Which of the three loops is reading. */
  datatype Mode = Top | InIf(unless: bool) | InEach

  datatype Parsed = Done(thenBody: seq<Node>, elseBody: seq<Node>, rest: string) | Failed

  datatype Opener = OpenIf(condition: string, unless: bool) | OpenEach(path: string) | NoOpener

  function OpenerOf(tag: string): Opener {
    if "#if " <= tag then OpenIf(Trim(tag[4..]), false)
    else if "#unless " <= tag then OpenIf(Trim(tag[8..]), true)
    else if "#each " <= tag then OpenEach(Trim(tag[6..]))
    else NoOpener
  }

  function Inner(o: Opener): Mode
    requires o != NoOpener
  {
    if o.OpenIf? then InIf(o.unless) else InEach
  }

  function NodeFor(o: Opener, thenBody: seq<Node>, elseBody: seq<Node>): Node
    requires o != NoOpener
  {
    if o.OpenIf? then If(o.condition, o.unless, thenBody, elseBody) else Each(o.path, thenBody)
  }

  function EndTag(mode: Mode): string
    requires !mode.Top?
  {
    match mode
    case InIf(unless) => if unless then "/unless" else "/if"
    case InEach => "/each"
  }

  /** The next tag: the text before it, its trimmed content, and what follows it. */
  datatype Scanned = NoTag | UnclosedTag | TagFound(text: string, tag: string, rest: string)

  function Scan(s: string): (r: Scanned)
    ensures r.TagFound? ==> |r.rest| < |s|
  {
    var open := Find(s, '{');
    if open == |s| then NoTag else ScanClose(s[..open], s[open..])
  }

  /** t begins with the opening braces. */
  function ScanClose(text: string, t: string): (r: Scanned)
    requires |t| >= 2 && t[0] == '{' && t[1] == '{'
    ensures r.TagFound? ==> |r.rest| < |t|
  {
    var close := Find(t, '}');
    if close == |t| then UnclosedTag else TagFound(text, Trim(t[2..close]), t[close + 2..])
  }

  function TextNodes(text: string): seq<Node> {
    if text == "" then [] else [Text(text)]
  }

  /** Appends to whichever branch is being read. */
  function Then(a: seq<Node>, ns: seq<Node>, inElse: bool): seq<Node> {
    if inElse then a else a + ns
  }

  function Else(b: seq<Node>, ns: seq<Node>, inElse: bool): seq<Node> {
    if inElse then b + ns else b
  }

  function Parse(s: string, mode: Mode, inElse: bool, a: seq<Node>, b: seq<Node>): (r: Parsed)
    ensures r.Done? ==> |r.rest| <= |s|
    decreases |s|, 0, 0
  {
    match Scan(s)
    case NoTag =>
      if mode.Top? then Done(Then(a, TextNodes(s), inElse), Else(b, TextNodes(s), inElse), "") else Failed
    case UnclosedTag => Failed
    case TagFound(text, tag, rest) =>
      Dispatch(tag, rest, mode, inElse, Then(a, TextNodes(text), inElse), Else(b, TextNodes(text), inElse))
  }

  /** What one tag does. */
  function Dispatch(tag: string, rest: string, mode: Mode, inElse: bool, a: seq<Node>, b: seq<Node>): (r: Parsed)
    ensures r.Done? ==> |r.rest| <= |rest|
    decreases |rest|, 1, 0
  {
    var o := OpenerOf(tag);
    if !mode.Top? && tag == EndTag(mode) then Done(a, b, rest)
    else if mode.InIf? && tag == "else" then
      if inElse then Failed else Parse(rest, mode, true, a, b)
    else if o != NoOpener then
      Resume(o, Parse(rest, Inner(o), false, [], []), rest, mode, inElse, a, b)
    else if mode.Top? && ("/" <= tag || tag == "else") then Failed
    else Parse(rest, mode, inElse, Then(a, [Var(tag)], inElse), Else(b, [Var(tag)], inElse))
  }

  /** Going on after a block whose inside, read from `rest`, was `sub`. */
  function Resume(o: Opener, sub: Parsed, rest: string, mode: Mode, inElse: bool, a: seq<Node>,
                  b: seq<Node>)
    : (r: Parsed)
    requires o != NoOpener && (sub.Done? ==> |sub.rest| <= |rest|)
    ensures r.Done? ==> |r.rest| <= |rest|
    decreases |rest|, 0, 1
  {
    match sub
    case Failed => Failed
    case Done(t, e, after) =>
      var node := [NodeFor(o, t, e)];
      Parse(after, mode, inElse, Then(a, node, inElse), Else(b, node, inElse))
  }

  // ---------------------------------------------------------------------
  // The three loops
  // ---------------------------------------------------------------------

  lemma ScanEmpty()
    ensures Scan("") == NoTag
  {
  }

  lemma AtTag(s: string, mode: Mode, inElse: bool, a: seq<Node>, b: seq<Node>)
    requires Scan(s).TagFound?
    ensures var t := TextNodes(Scan(s).text);
            Parse(s, mode, inElse, a, b)
            == Dispatch(Scan(s).tag, Scan(s).rest, mode, inElse, Then(a, t, inElse), Else(b, t, inElse))
  {
    hide Scan, Dispatch;
  }

  /** An opener hands what follows to the inner loop and goes on after the block. */
  lemma AtOpener(tag: string, rest: string, mode: Mode, inElse: bool, a: seq<Node>, b: seq<Node>)
    requires OpenerOf(tag) != NoOpener
    ensures mode.Top? || tag != EndTag(mode)
    ensures tag != "else"
    ensures var o := OpenerOf(tag);
            match Parse(rest, Inner(o), false, [], [])
            case Failed => Dispatch(tag, rest, mode, inElse, a, b) == Failed
            case Done(t, e, after) =>
              Dispatch(tag, rest, mode, inElse, a, b)
              == Parse(after, mode, inElse, Then(a, [NodeFor(o, t, e)], inElse), Else(b, [NodeFor(o, t, e)], inElse))
  {
    hide Parse, Then, Else;
    assert tag[0] == '#';
    if !mode.Top? { assert EndTag(mode)[0] == '/'; }
  }

  /** The head of each loop: the next tag from i on, and the index just after it. */
  method ScanTag(input: string, i: nat) returns (r: Scanned, next: nat)
    requires i <= |input|
    ensures r == Scan(input[i..])
    ensures r.TagFound? ==> i < next <= |input| && r.rest == input[next..]
  {
    hide Trim;
    var s := input[i..];
    var open := Find(s, '{');
    if open == |s| {
      return NoTag, i;
    }
    var t := s[open..];
    var close := Find(t, '}');
    if close == |t| {
      return UnclosedTag, i;
    }
    assert t[0] == '{' && t[1] == '{';
    next := i + open + close + 2;
    assert t[close + 2..] == input[next..];
    return TagFound(s[..open], Trim(t[2..close]), t[close + 2..]), next;
  }

  /** parseTemplate. */
  method ParseTemplate(input: string) returns (r: Option<seq<Node>>)
    ensures match Parse(input, Top, false, [], [])
            case Done(nodes, _, _) => r == Some(nodes)
            case Failed => r == None
    decreases |input|, 1
  {
    hide Scan, OpenerOf;
    var nodes: seq<Node> := [];
    var i := 0;
    assert input[0..] == input;
    while i < |input|
      invariant i <= |input|
      invariant Parse(input, Top, false, [], []) == Parse(input[i..], Top, false, nodes, [])
    {
      var found, next := ScanTag(input, i);
      match found {
        case NoTag => return Some(nodes + [Text(input[i..])]);
        case UnclosedTag => return None;
        case TagFound(text, tag, rest) =>
          AtTag(input[i..], Top, false, nodes, []);
          nodes := nodes + TextNodes(text);
          var o := OpenerOf(tag);
          if o != NoOpener {
            AtOpener(tag, rest, Top, false, nodes, []);
            var ok, node, consumed := ParseBlock(o, rest);
            if !ok {
              return None;
            }
            assert input[next..][consumed..] == input[next + consumed..];
            nodes := nodes + [node];
            i := next + consumed;
            continue;
          }
          if "/" <= tag || tag == "else" {
            return None;
          }
          nodes := nodes + [Var(tag)];
          i := next;
      }
    }
    ScanEmpty();
    assert input[i..] == "" && nodes + [] == nodes;
    return Some(nodes);
  }

  /** The branch on the opener, shared by the three loops. */
  method ParseBlock(o: Opener, input: string) returns (ok: bool, node: Node, consumed: nat)
    requires o != NoOpener
    ensures ok ==> consumed <= |input|
    ensures match Parse(input, Inner(o), false, [], [])
            case Done(t, e, rest) => ok && node == NodeFor(o, t, e) && rest == input[consumed..]
            case Failed => !ok
    decreases |input|, 2
  {
    hide Parse;
    match o {
      case OpenIf(condition, unless) =>
        var thenBody, elseBody;
        ok, thenBody, elseBody, consumed := ParseIfBlock(input, unless);
        node := If(condition, unless, thenBody, elseBody);
      case OpenEach(path) =>
        var body;
        ok, body, consumed := ParseEachBlock(input);
        node := Each(path, body);
    }
  }

  /** parseIfBlock. */
  method ParseIfBlock(input: string, unless: bool)
    returns (ok: bool, thenBody: seq<Node>, elseBody: seq<Node>, consumed: nat)
    ensures ok ==> consumed <= |input|
    ensures match Parse(input, InIf(unless), false, [], [])
            case Done(t, e, rest) => ok && thenBody == t && elseBody == e && rest == input[consumed..]
            case Failed => !ok
    decreases |input|, 1
  {
    hide Scan, OpenerOf, EndTag, Then, Else;
    var mode := InIf(unless);
    thenBody, elseBody, consumed := [], [], 0;
    var i, inElse := 0, false;
    assert input[0..] == input;
    while i < |input|
      invariant i <= |input|
      invariant Parse(input, mode, false, [], []) == Parse(input[i..], mode, inElse, thenBody, elseBody)
    {
      var found, next := ScanTag(input, i);
      match found {
        case NoTag => return false, [], [], 0;
        case UnclosedTag => return false, [], [], 0;
        case TagFound(text, tag, rest) =>
          AtTag(input[i..], mode, inElse, thenBody, elseBody);
          thenBody, elseBody := Then(thenBody, TextNodes(text), inElse), Else(elseBody, TextNodes(text), inElse);
          if tag == EndTag(mode) {
            return true, thenBody, elseBody, next;
          }
          if tag == "else" {
            if inElse {
              return false, [], [], 0;
            }
            inElse := true;
            i := next;
            continue;
          }
          var o := OpenerOf(tag);
          if o != NoOpener {
            AtOpener(tag, rest, mode, inElse, thenBody, elseBody);
            var sub, node, used := ParseBlock(o, rest);
            if !sub {
              return false, [], [], 0;
            }
            assert input[next..][used..] == input[next + used..];
            thenBody, elseBody := Then(thenBody, [node], inElse), Else(elseBody, [node], inElse);
            i := next + used;
            continue;
          }
          thenBody, elseBody := Then(thenBody, [Var(tag)], inElse), Else(elseBody, [Var(tag)], inElse);
          i := next;
      }
    }
    ScanEmpty();
    assert input[i..] == "";
    return false, [], [], 0;
  }

  /** parseEachBlock. */
  method ParseEachBlock(input: string) returns (ok: bool, body: seq<Node>, consumed: nat)
    ensures ok ==> consumed <= |input|
    ensures match Parse(input, InEach, false, [], [])
            case Done(t, e, rest) => ok && body == t && e == [] && rest == input[consumed..]
            case Failed => !ok
    decreases |input|, 1
  {
    hide Scan, OpenerOf;
    body, consumed := [], 0;
    var i := 0;
    assert input[0..] == input;
    while i < |input|
      invariant i <= |input|
      invariant Parse(input, InEach, false, [], []) == Parse(input[i..], InEach, false, body, [])
    {
      var found, next := ScanTag(input, i);
      match found {
        case NoTag => return false, [], 0;
        case UnclosedTag => return false, [], 0;
        case TagFound(text, tag, rest) =>
          AtTag(input[i..], InEach, false, body, []);
          body := body + TextNodes(text);
          if tag == EndTag(InEach) {
            return true, body, next;
          }
          var o := OpenerOf(tag);
          if o != NoOpener {
            AtOpener(tag, rest, InEach, false, body, []);
            var sub, node, used := ParseBlock(o, rest);
            if !sub {
              return false, [], 0;
            }
            assert input[next..][used..] == input[next + used..];
            body := body + [node];
            i := next + used;
            continue;
          }
          body := body + [Var(tag)];
          i := next;
      }
    }
    ScanEmpty();
    assert input[i..] == "";
    return false, [], 0;
  }

  // ---------------------------------------------------------------------
  // What a block consumes, for every input
  // ---------------------------------------------------------------------

  /** s is some text, the block's own end tag, and rest. */
  ghost predicate EndsAtOwnTag(s: string, mode: Mode, rest: string)
    requires !mode.Top?
  {
    exists p: string, t: string :: s == p + ("{{" + (t + ("}}" + rest))) && Trim(t) == EndTag(mode)
  }

  lemma Extends(p: string, s: string, mode: Mode, rest: string)
    requires !mode.Top? && EndsAtOwnTag(s, mode, rest)
    ensures EndsAtOwnTag(p + s, mode, rest)
  {
    var q, t :| s == q + ("{{" + (t + ("}}" + rest))) && Trim(t) == EndTag(mode);
    assert p + s == (p + q) + ("{{" + (t + ("}}" + rest)));
  }

  ghost predicate IsSuffix(rest: string, s: string) {
    |rest| <= |s| && s == s[..|s| - |rest|] + rest
  }

  lemma SuffixOfSuffix(x: string, y: string, z: string)
    requires IsSuffix(x, y) && IsSuffix(y, z)
    ensures IsSuffix(x, z)
  {
    assert z == z[..|z| - |y|] + (y[..|y| - |x|] + x);
  }

  lemma ExtendsSuffix(s: string, t: string, mode: Mode, rest: string)
    requires !mode.Top? && IsSuffix(s, t) && EndsAtOwnTag(s, mode, rest)
    ensures EndsAtOwnTag(t, mode, rest)
  {
    Extends(t[..|t| - |s|], s, mode, rest);
  }

  /** The tag that was found is where the scan says, with that text before it. */
  lemma ScanSplits(s: string) returns (raw: string)
    requires Scan(s).TagFound?
    ensures Trim(raw) == Scan(s).tag && s == Scan(s).text + ("{{" + (raw + ("}}" + Scan(s).rest)))
    ensures IsSuffix(Scan(s).rest, s)
  {
    hide Find, Trim;
    var open := Find(s, '{');
    var t := s[open..];
    var close := Find(t, '}');
    assert t[0] == '{' && t[1] == '{';
    raw := t[2..close];
    assert t == "{{" + (raw + ("}}" + t[close + 2..]));
    assert s == s[..open] + t;
  }

  /** A parsed block stops exactly after its own end tag, wherever that is nested. */
  lemma {:induction false} BlocksConsumeThroughOwnTag(s: string, mode: Mode, inElse: bool, a: seq<Node>, b: seq<Node>)
    requires Parse(s, mode, inElse, a, b).Done?
    ensures IsSuffix(Parse(s, mode, inElse, a, b).rest, s)
    ensures !mode.Top? ==> EndsAtOwnTag(s, mode, Parse(s, mode, inElse, a, b).rest)
    decreases |s|, 0
  {
    hide Scan, Trim, Dispatch, EndsAtOwnTag, IsSuffix;
    var r, found := Parse(s, mode, inElse, a, b), Scan(s);
    match found {
      case NoTag => EmptyIsSuffix(s);
      case UnclosedTag =>
      case TagFound(text, tag, rest) =>
        var raw := ScanSplits(s);
        var a', b' := Then(a, TextNodes(text), inElse), Else(b, TextNodes(text), inElse);
        DispatchConsumes(tag, rest, mode, inElse, a', b');
        SuffixOfSuffix(r.rest, rest, s);
        if !mode.Top? && tag == EndTag(mode) {
          OwnTag(text, raw, mode, rest);
        } else if !mode.Top? {
          ExtendsSuffix(rest, s, mode, r.rest);
        }
    }
  }

  lemma EmptyIsSuffix(s: string)
    ensures IsSuffix("", s) && IsSuffix(s, s)
  {
  }

  lemma OwnTag(p: string, raw: string, mode: Mode, rest: string)
    requires !mode.Top? && Trim(raw) == EndTag(mode)
    ensures EndsAtOwnTag(p + ("{{" + (raw + ("}}" + rest))), mode, rest)
  {
  }

  /** A tag either is the block's own end, or reading goes on to that end. */
  lemma {:induction false} DispatchConsumes(tag: string, rest: string, mode: Mode, inElse: bool, a: seq<Node>,
                                            b: seq<Node>)
    requires Dispatch(tag, rest, mode, inElse, a, b).Done?
    ensures var r := Dispatch(tag, rest, mode, inElse, a, b);
            && IsSuffix(r.rest, rest)
            && (!mode.Top? ==> if tag == EndTag(mode) then r.rest == rest else EndsAtOwnTag(rest, mode, r.rest))
    decreases |rest|, 1
  {
    hide Scan, Trim, Parse, EndTag, OpenerOf, EndsAtOwnTag, IsSuffix, Then, Else;
    var o := OpenerOf(tag);
    EmptyIsSuffix(rest);
    if !mode.Top? && tag == EndTag(mode) {
    } else if mode.InIf? && tag == "else" {
      BlocksConsumeThroughOwnTag(rest, mode, true, a, b);
    } else if o != NoOpener {
      var sub := Parse(rest, Inner(o), false, [], []);
      BlocksConsumeThroughOwnTag(rest, Inner(o), false, [], []);
      SubConsumes(rest, Inner(o));
      var node := [NodeFor(o, sub.thenBody, sub.elseBody)];
      var r := Parse(sub.rest, mode, inElse, Then(a, node, inElse), Else(b, node, inElse));
      BlocksConsumeThroughOwnTag(sub.rest, mode, inElse, Then(a, node, inElse), Else(b, node, inElse));
      SuffixOfSuffix(r.rest, sub.rest, rest);
      if !mode.Top? {
        ExtendsSuffix(sub.rest, rest, mode, r.rest);
      }
    } else {
      BlocksConsumeThroughOwnTag(rest, mode, inElse, Then(a, [Var(tag)], inElse), Else(b, [Var(tag)], inElse));
    }
  }

  lemma SubConsumes(rest: string, mode: Mode)
    requires !mode.Top? && Parse(rest, mode, false, [], []).Done?
    ensures |Parse(rest, mode, false, [], []).rest| < |rest|
  {
    hide Scan, Dispatch;
  }
}
