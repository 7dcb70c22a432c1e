/**
 The template language as a grammar: concrete templates built of pieces, with
 the raw content of every tag. The parser accepts exactly what is built this
 way and returns its tree, so it undoes printing, however tags are padded.
 */
module TemplateGrammar {
  import opened Common
  import opened Template

  // ---------------------------------------------------------------------
  // Concrete templates
  // ---------------------------------------------------------------------

  /** A node with the raw content of its tags. */
  datatype Piece =
    | TextPiece(text: string)
    | VarPiece(raw: string, path: string)
    | IfPiece(raw: string, condition: string, invert: bool, thenBody: seq<Piece>,
              elseRaw: Option<string>, elseBody: seq<Piece>, closeRaw: string)
    | EachPiece(raw: string, collection: string, body: seq<Piece>, closeRaw: string)

  function Tag(raw: string): string {
    "{{" + raw + "}}"
  }

  function Show(ps: seq<Piece>): string
    decreases ps, 0
  {
    if ps == [] then "" else ShowPiece(ps[0]) + Show(ps[1..])
  }

  function ShowElse(p: Piece): string
    requires p.IfPiece?
    decreases p, 1
  {
    if p.elseRaw.None? then "" else Tag(p.elseRaw.value) + Show(p.elseBody)
  }

  function ShowPiece(p: Piece): string
    decreases p, 2
  {
    match p
    case TextPiece(t) => t
    case VarPiece(raw, _) => Tag(raw)
    case IfPiece(raw, _, _, t, _, _, closeRaw) => Tag(raw) + (Show(t) + (ShowElse(p) + Tag(closeRaw)))
    case EachPiece(raw, _, body, closeRaw) => Tag(raw) + (Show(body) + Tag(closeRaw))
  }

  function Tree(ps: seq<Piece>): seq<Node>
    decreases ps, 0
  {
    if ps == [] then [] else [TreeOf(ps[0])] + Tree(ps[1..])
  }

  function TreeOf(p: Piece): Node
    decreases p, 1
  {
    match p
    case TextPiece(t) => Text(t)
    case VarPiece(_, path) => Var(path)
    case IfPiece(_, c, invert, t, _, e, _) => If(c, invert, Tree(t), Tree(e))
    case EachPiece(_, c, body, _) => Each(c, Tree(body))
  }

  // ---------------------------------------------------------------------
  // Which are well formed
  // ---------------------------------------------------------------------

  /** The first closing braces after raw are the tag's own. */
  predicate RawTag(raw: string) {
    Find(raw, '}') == |raw| && (raw != "" ==> raw[|raw| - 1] != '}')
  }

  /** Text up to the next opening braces, or to the end if no tag follows. */
  predicate RawText(t: string, closed: bool) {
    t != "" && Find(t, '{') == |t| && (closed ==> t[|t| - 1] != '{')
  }

  /** Not a tag that means something else where it stands. */
  predicate PathIn(path: string, mode: Mode) {
    && OpenerOf(path) == NoOpener
    && (!mode.Top? ==> path != EndTag(mode))
    && (!mode.InEach? ==> path != "else")
    && (mode.Top? ==> !("/" <= path))
  }

  /** `closed`: a tag follows the pieces. */
  predicate Fits(ps: seq<Piece>, mode: Mode, closed: bool)
    decreases ps, 0
  {
    ps == [] ||
    (FitsPiece(ps[0], mode, |ps| > 1 || closed) && Fits(ps[1..], mode, closed)
     && (|ps| > 1 && ps[0].TextPiece? ==> !ps[1].TextPiece?))
  }

  predicate FitsPiece(p: Piece, mode: Mode, closed: bool)
    ensures FitsPiece(p, mode, closed) && p.TextPiece? ==> p.text != ""
    decreases p, 1
  {
    match p
    case TextPiece(t) => RawText(t, closed)
    case VarPiece(raw, path) => RawTag(raw) && Trim(raw) == path && PathIn(path, mode)
    case IfPiece(raw, c, invert, t, elseRaw, e, closeRaw) =>
      && RawTag(raw) && OpenerOf(Trim(raw)) == OpenIf(c, invert)
      && Fits(t, InIf(invert), true) && Fits(e, InIf(invert), true)
      && (match elseRaw case Some(raw) => RawTag(raw) && Trim(raw) == "else" case None => e == [])
      && RawTag(closeRaw) && Trim(closeRaw) == EndTag(InIf(invert))
    case EachPiece(raw, c, body, closeRaw) =>
      && RawTag(raw) && OpenerOf(Trim(raw)) == OpenEach(c) && Fits(body, InEach, true)
      && RawTag(closeRaw) && Trim(closeRaw) == EndTag(InEach)
  }

  // ---------------------------------------------------------------------
  // Reading back one piece
  // ---------------------------------------------------------------------

  /** With nothing doubled in s and no doubling across the seam, the search passes over s. */
  lemma {:induction false} FindAfter(s: string, tail: string, c: char)
    requires Find(s, c) == |s|
    requires s == "" || tail == "" || !(s[|s| - 1] == c && tail[0] == c)
    requires |tail| >= 2 && tail[0] == c && tail[1] == c
    ensures Find(s + tail, c) == |s|
  {
    if s == "" {
      assert s + tail == tail;
    } else {
      assert (s + tail)[1..] == s[1..] + tail;
      assert Find(s, c) == if |s| < 2 then |s| else 1 + Find(s[1..], c);
      FindAfter(s[1..], tail, c);
      if |s| == 1 { assert s[1..] == ""; }
    }
  }

  lemma FindHere(s: string, c: char)
    requires |s| >= 2 && s[0] == c && s[1] == c
    ensures Find(s, c) == 0
  {
  }

  lemma FindSkips(x: char, s: string, c: char)
    requires x != c
    ensures Find([x] + s, c) == 1 + Find(s, c)
  {
    assert ([x] + s)[1..] == s;
  }

  lemma FindPrefix(raw: string)
    requires Find(raw, '}') == |raw|
    ensures Find("{{" + raw, '}') == |raw| + 2
  {
    hide Find;
    assert "{{" + raw == ['{'] + (['{'] + raw);
    FindSkips('{', raw, '}');
    FindSkips('{', ['{'] + raw, '}');
  }

  /** What follows the opening braces up to the first closing pair is the tag. */
  lemma TagStep(raw: string, rest: string)
    requires RawTag(raw)
    ensures Scan(Tag(raw) + rest) == TagFound("", Trim(raw), rest)
  {
    hide Trim, Find;
    var s, inner := Tag(raw) + rest, "{{" + raw;
    assert s == inner + ("}}" + rest);
    FindPrefix(raw);
    FindAfter(inner, "}}" + rest, '}');
    assert s[0] == '{' && s[1] == '{';
    FindHere(s, '{');
    assert s[0..] == s && s[2..2 + |raw|] == raw && s[2 + |raw| + 2..] == rest;
  }

  lemma ParseAtTag(raw: string, rest: string, mode: Mode, inElse: bool, a: seq<Node>, b: seq<Node>)
    requires RawTag(raw)
    ensures Parse(Tag(raw) + rest, mode, inElse, a, b) == Dispatch(Trim(raw), rest, mode, inElse, a, b)
  {
    hide Scan, RawTag, Dispatch, Trim;
    TagStep(raw, rest);
    AppendNone(inElse, a, b);
  }

  lemma AppendNone(inElse: bool, a: seq<Node>, b: seq<Node>)
    ensures Then(a, [], inElse) == a && Else(b, [], inElse) == b
  {
  }

  /** The text before a tag is reported with that tag. */
  lemma ScanText(t: string, tail: string)
    requires RawText(t, true) && "{{" <= tail
    ensures var from := Scan(tail);
            !from.NoTag? && Scan(t + tail)
              == if from.TagFound? then TagFound(t + from.text, from.tag, from.rest) else from
    ensures Scan(tail).TagFound? ==> Scan(tail).text == ""
  {
    hide Trim, Find;
    assert tail[..2] == "{{";
    FindHere(tail, '{');
    FindAfter(t, tail, '{');
    var s := t + tail;
    assert s[|t|..] == tail && s[..|t|] == t && tail[0..] == tail;
  }

  /** A text is read as one node when a tag follows. */
  lemma TextStep(t: string, tail: string, mode: Mode, inElse: bool, a: seq<Node>, b: seq<Node>)
    requires RawText(t, true) && "{{" <= tail
    ensures Parse(t + tail, mode, inElse, a, b)
         == Parse(tail, mode, inElse, Then(a, [Text(t)], inElse), Else(b, [Text(t)], inElse))
  {
    hide Parse, Scan, Find, Dispatch;
    ScanText(t, tail);
    var a', b' := Then(a, [Text(t)], inElse), Else(b, [Text(t)], inElse);
    if Scan(tail).TagFound? {
      AtTag(tail, mode, inElse, a', b');
      AtTag(t + tail, mode, inElse, a, b);
      assert t + "" == t;
    } else {
      NotClosed(tail, mode, inElse, a', b');
      NotClosed(t + tail, mode, inElse, a, b);
    }
    AppendNone(inElse, a', b');
  }

  lemma NotClosed(s: string, mode: Mode, inElse: bool, a: seq<Node>, b: seq<Node>)
    requires Scan(s).UnclosedTag?
    ensures Parse(s, mode, inElse, a, b) == Failed
  {
    hide Scan, Dispatch;
  }

  lemma LastText(t: string, inElse: bool, a: seq<Node>, b: seq<Node>)
    requires RawText(t, false)
    ensures Parse(t, Top, inElse, a, b)
         == Parse("", Top, inElse, Then(a, [Text(t)], inElse), Else(b, [Text(t)], inElse))
  {
    ScanEmpty();
    AppendNone(inElse, Then(a, [Text(t)], inElse), Else(b, [Text(t)], inElse));
  }

  lemma LastPlain(t: string, closed: bool)
    requires RawText(t, closed)
    ensures RawText(t, false)
  {
  }

  lemma VarStep(raw: string, rest: string, mode: Mode, inElse: bool, a: seq<Node>, b: seq<Node>)
    requires RawTag(raw) && PathIn(Trim(raw), mode)
    ensures Parse(Tag(raw) + rest, mode, inElse, a, b)
         == Parse(rest, mode, inElse, Then(a, [Var(Trim(raw))], inElse), Else(b, [Var(Trim(raw))], inElse))
  {
    hide Parse, RawTag, OpenerOf, Tag, Trim;
    ParseAtTag(raw, rest, mode, inElse, a, b);
  }

  lemma CloseStep(raw: string, rest: string, mode: Mode, inElse: bool, a: seq<Node>, b: seq<Node>)
    requires RawTag(raw) && !mode.Top? && Trim(raw) == EndTag(mode)
    ensures Parse(Tag(raw) + rest, mode, inElse, a, b) == Done(a, b, rest)
  {
    hide Parse, RawTag, OpenerOf, EndTag, Tag, Trim;
    ParseAtTag(raw, rest, mode, inElse, a, b);
  }

  lemma ElseStep(raw: string, rest: string, unless: bool, a: seq<Node>, b: seq<Node>)
    requires RawTag(raw) && Trim(raw) == "else"
    ensures Parse(Tag(raw) + rest, InIf(unless), false, a, b) == Parse(rest, InIf(unless), true, a, b)
  {
    hide Parse, RawTag, OpenerOf, Tag, Trim;
    ParseAtTag(raw, rest, InIf(unless), false, a, b);
  }

  /** An opener whose block is read in full. */
  lemma OpenStep(raw: string, rest: string, mode: Mode, inElse: bool, a: seq<Node>, b: seq<Node>)
    requires RawTag(raw) && OpenerOf(Trim(raw)) != NoOpener
    requires Parse(rest, Inner(OpenerOf(Trim(raw))), false, [], []).Done?
    ensures var o := OpenerOf(Trim(raw));
            var sub := Parse(rest, Inner(o), false, [], []);
            var node := [NodeFor(o, sub.thenBody, sub.elseBody)];
            Parse(Tag(raw) + rest, mode, inElse, a, b)
            == Parse(sub.rest, mode, inElse, Then(a, node, inElse), Else(b, node, inElse))
  {
    hide Parse, RawTag, OpenerOf, Tag, Trim, Dispatch;
    ParseAtTag(raw, rest, mode, inElse, a, b);
    AtOpener(Trim(raw), rest, mode, inElse, a, b);
  }

  // ---------------------------------------------------------------------
  // Reading back whole templates
  // ---------------------------------------------------------------------

  /** Well-formed pieces ahead of `tail` are read into the branch at hand, and reading goes on at `tail`. */
  lemma {:induction false} ReadsBack(ps: seq<Piece>, tail: string, mode: Mode, inElse: bool, a: seq<Node>, b: seq<Node>)
    requires Fits(ps, mode, tail != "") && (tail == "" || "{{" <= tail) && (tail == "" ==> mode.Top?)
    ensures Parse(Show(ps) + tail, mode, inElse, a, b)
         == Parse(tail, mode, inElse, Then(a, Tree(ps), inElse), Else(b, Tree(ps), inElse))
    decreases ps, 0
  {
    hide Parse, Find, Fits, FitsPiece, Show, ShowPiece, Tree, TreeOf, Then, Else;
    ShowCons(ps);
    if ps == [] {
      assert Show(ps) + tail == tail;
      AppendNone(inElse, a, b);
    } else {
      var n, more := TreeOf(ps[0]), Show(ps[1..]) + tail;
      AppendCons(n, Tree(ps[1..]), inElse, a, b);
      assert Show(ps) + tail == ShowPiece(ps[0]) + more;
      FitsHead(ps, mode, tail != "");
      StartsWithTag(ps[1..], tail);
      PieceStep(ps[0], |ps| > 1 || tail != "", more, mode, inElse, a, b);
      ReadsBack(ps[1..], tail, mode, inElse, Then(a, [n], inElse), Else(b, [n], inElse));
    }
  }

  lemma AppendCons(n: Node, more: seq<Node>, inElse: bool, a: seq<Node>, b: seq<Node>)
    ensures Then(Then(a, [n], inElse), more, inElse) == Then(a, [n] + more, inElse)
    ensures Else(Else(b, [n], inElse), more, inElse) == Else(b, [n] + more, inElse)
  {
  }

  lemma ShowCons(ps: seq<Piece>)
    ensures Show(ps) == if ps == [] then "" else ShowPiece(ps[0]) + Show(ps[1..])
    ensures Tree(ps) == if ps == [] then [] else [TreeOf(ps[0])] + Tree(ps[1..])
  {
  }

  lemma FitsHead(ps: seq<Piece>, mode: Mode, closed: bool)
    requires Fits(ps, mode, closed) && ps != []
    ensures FitsPiece(ps[0], mode, |ps| > 1 || closed) && Fits(ps[1..], mode, closed)
    ensures |ps| > 1 && ps[0].TextPiece? ==> !ps[1].TextPiece?
  {
  }

  /** After a text comes a tag, or the end of the template. */
  lemma StartsWithTag(ps: seq<Piece>, tail: string)
    requires tail == "" || "{{" <= tail
    ensures ps == [] ==> Show(ps) + tail == tail
    ensures ps != [] && !ps[0].TextPiece? ==> "{{" <= Show(ps) + tail
  {
    if ps != [] && !ps[0].TextPiece? {
      var s := Show(ps) + tail;
      assert ShowPiece(ps[0])[..2] == "{{";
      assert s[..2] == "{{";
    } else if ps == [] {
      assert Show(ps) == "";
    }
  }

  lemma TagLeads(raw: string, more: string)
    ensures "{{" <= Tag(raw) + more && Tag(raw) + more != ""
  {
    assert (Tag(raw) + more)[..2] == "{{";
  }

  lemma {:induction false} PieceStep(p: Piece, closed: bool, more: string, mode: Mode, inElse: bool,
                                     a: seq<Node>, b: seq<Node>)
    requires FitsPiece(p, mode, closed)
    requires p.TextPiece? ==> (more == "" && mode.Top?) || (closed && "{{" <= more)
    ensures Parse(ShowPiece(p) + more, mode, inElse, a, b)
         == Parse(more, mode, inElse, Then(a, [TreeOf(p)], inElse), Else(b, [TreeOf(p)], inElse))
    decreases p, 1
  {
    hide Tag, Fits, Show, ShowElse, Tree, Parse, Find, RawTag, RawText, Trim, OpenerOf, EndTag, Then, Else;
    match p {
      case TextPiece(t) =>
        if more == "" {
          LastPlain(t, closed);
          LastText(t, inElse, a, b);
          assert t + more == t;
        } else {
          TextStep(t, more, mode, inElse, a, b);
        }
      case VarPiece(raw, _) => VarStep(raw, more, mode, inElse, a, b);
      case IfPiece(raw, c, invert, t, _, e, closeRaw) =>
        var inside := Show(t) + (ShowElse(p) + (Tag(closeRaw) + more));
        assert ShowPiece(p) + more == Tag(raw) + inside;
        IfBlockStep(p, closed, more, mode);
        OpenStep(raw, inside, mode, inElse, a, b);
      case EachPiece(raw, c, body, closeRaw) =>
        var inside := Show(body) + (Tag(closeRaw) + more);
        assert ShowPiece(p) + more == Tag(raw) + inside;
        EachBlockStep(p, closed, more, mode);
        OpenStep(raw, inside, mode, inElse, a, b);
    }
  }

  /** parseIfBlock reads its two branches and consumes exactly through its own end tag. */
  lemma {:induction false} IfBlockStep(p: Piece, closed: bool, more: string, mode: Mode)
    requires p.IfPiece? && FitsPiece(p, mode, closed)
    ensures Parse(Show(p.thenBody) + (ShowElse(p) + (Tag(p.closeRaw) + more)), InIf(p.invert), false, [], [])
         == Done(Tree(p.thenBody), Tree(p.elseBody), more)
    decreases p, 0
  {
    hide Parse, Find, Tag, Show, Tree, Fits, EndTag, Then, Else, Trim, OpenerOf, RawTag;
    var inside, close := InIf(p.invert), Tag(p.closeRaw) + more;
    TagLeads(p.closeRaw, more);
    Branches(Tree(p.thenBody), Tree(p.elseBody));
    match p.elseRaw {
      case None =>
        assert ShowElse(p) + close == close;
        ReadsBack(p.thenBody, close, inside, false, [], []);
        CloseStep(p.closeRaw, more, inside, false, Tree(p.thenBody), []);
        ShowCons(p.elseBody);
      case Some(raw) =>
        var second := Show(p.elseBody) + close;
        assert ShowElse(p) + close == Tag(raw) + second;
        TagLeads(raw, second);
        ReadsBack(p.thenBody, Tag(raw) + second, inside, false, [], []);
        ElseStep(raw, second, p.invert, Tree(p.thenBody), []);
        ReadsBack(p.elseBody, close, inside, true, Tree(p.thenBody), []);
        CloseStep(p.closeRaw, more, inside, true, Tree(p.thenBody), Tree(p.elseBody));
    }
  }

  lemma Branches(t: seq<Node>, e: seq<Node>)
    ensures Then([], t, false) == t && Else([], t, false) == []
    ensures Then(t, e, true) == t && Else([], e, true) == e
  {
  }

  /** parseEachBlock likewise. */
  lemma {:induction false} EachBlockStep(p: Piece, closed: bool, more: string, mode: Mode)
    requires p.EachPiece? && FitsPiece(p, mode, closed)
    ensures Parse(Show(p.body) + (Tag(p.closeRaw) + more), InEach, false, [], []) == Done(Tree(p.body), [], more)
    decreases p, 0
  {
    hide Parse, Find, Tag, Show, Tree, Fits, EndTag, Then, Else, Trim, OpenerOf, RawTag;
    TagLeads(p.closeRaw, more);
    ReadsBack(p.body, Tag(p.closeRaw) + more, InEach, false, [], []);
    Branches(Tree(p.body), []);
    CloseStep(p.closeRaw, more, InEach, false, Tree(p.body), []);
  }

  // ---------------------------------------------------------------------
  // Whatever is accepted is built of pieces
  // ---------------------------------------------------------------------

  /** How a list of pieces ends: with the template, its block's end tag, or an else part and that tag. */
  datatype End = AtEnd | AtClose(raw: string) | AtElse(raw: string, ps: seq<Piece>, closeRaw: string)

  predicate Closes(raw: string, mode: Mode)
    requires !mode.Top?
  {
    RawTag(raw) && Trim(raw) == EndTag(mode)
  }

  /** s is made of these pieces, and they are what reading it appends to a and b. */
  ghost predicate Derives(s: string, mode: Mode, inElse: bool, a: seq<Node>, b: seq<Node>, ps: seq<Piece>, end: End) {
    var r := Parse(s, mode, inElse, a, b);
    && r.Done? && Fits(ps, mode, !end.AtEnd?)
    && match end
       case AtEnd =>
         && mode.Top? && s == Show(ps)
         && r == Done(Then(a, Tree(ps), inElse), Else(b, Tree(ps), inElse), "")
       case AtClose(raw) =>
         && !mode.Top? && Closes(raw, mode) && s == Show(ps) + (Tag(raw) + r.rest)
         && r.thenBody == Then(a, Tree(ps), inElse) && r.elseBody == Else(b, Tree(ps), inElse)
       case AtElse(raw, more, closeRaw) =>
         && mode.InIf? && !inElse && RawTag(raw) && Trim(raw) == "else"
         && Closes(closeRaw, mode) && Fits(more, mode, true)
         && s == Show(ps) + (Tag(raw) + (Show(more) + (Tag(closeRaw) + r.rest)))
         && r.thenBody == a + Tree(ps) && r.elseBody == b + Tree(more)
  }

  function TextPieces(text: string): seq<Piece> {
    if text == "" then [] else [TextPiece(text)]
  }

  /** What the scan finds is raw text and a raw tag. */
  lemma ScanRaw(s: string) returns (raw: string)
    requires Scan(s).TagFound?
    ensures Trim(raw) == Scan(s).tag && RawTag(raw) && s == Scan(s).text + (Tag(raw) + Scan(s).rest)
    ensures Scan(s).text != "" ==> RawText(Scan(s).text, true)
  {
    hide Trim, Find, RawTag, RawText, Tag;
    var open := Find(s, '{');
    var t := s[open..];
    var close := Find(t, '}');
    assert t[0] == '{' && t[1] == '{';
    TagContent(t);
    raw := t[2..close];
    TextBefore(s);
    assert s == s[..open] + t;
  }

  lemma TagContent(t: string)
    requires |t| >= 2 && t[0] == '{' && t[1] == '{' && Find(t, '}') < |t|
    ensures var close := Find(t, '}');
            close >= 2 && RawTag(t[2..close]) && t == Tag(t[2..close]) + t[close + 2..]
  {
    hide Find;
    var close := Find(t, '}');
    NothingFound(t[2..close], '}');
    Cut(t, close);
  }

  lemma Cut(t: string, close: nat)
    requires 2 <= close && close + 2 <= |t|
    requires t[0] == '{' && t[1] == '{' && t[close] == '}' && t[close + 1] == '}'
    ensures t == Tag(t[2..close]) + t[close + 2..]
  {
    assert t[..2] == "{{" && t[close..close + 2] == "}}";
    assert t == t[..2] + t[2..close] + t[close..close + 2] + t[close + 2..];
  }

  lemma TextBefore(s: string)
    requires Find(s, '{') < |s|
    ensures var text := s[..Find(s, '{')]; text != "" ==> RawText(text, true)
  {
    hide Find;
    NothingFound(s[..Find(s, '{')], '{');
  }

  lemma {:induction false} NothingFound(s: string, c: char)
    requires forall k :: 0 <= k < |s| - 1 ==> !(s[k] == c && s[k + 1] == c)
    ensures Find(s, c) == |s|
  {
    if |s| >= 2 {
      forall k | 0 <= k < |s[1..]| - 1 ensures !(s[1..][k] == c && s[1..][k + 1] == c) {
        assert s[1..][k] == s[k + 1] && s[1..][k + 1] == s[k + 2];
      }
      NothingFound(s[1..], c);
    }
  }

  /** A text and a tag in front of what has been derived. */
  lemma Prepends(s: string, mode: Mode, inElse: bool, a: seq<Node>, b: seq<Node>, text: string, p: Piece,
                 after: string, a': seq<Node>, b': seq<Node>, ps: seq<Piece>, end: End)
    requires Derives(after, mode, inElse, a', b', ps, end)
    requires !p.TextPiece? && FitsPiece(p, mode, true) && (text != "" ==> RawText(text, true))
    requires s == text + (ShowPiece(p) + after)
    requires Parse(s, mode, inElse, a, b) == Parse(after, mode, inElse, a', b')
    requires var ns := TextNodes(text) + [TreeOf(p)]; a' == Then(a, ns, inElse) && b' == Else(b, ns, inElse)
    ensures Derives(s, mode, inElse, a, b, TextPieces(text) + [p] + ps, end)
  {
    hide Parse, Show, ShowPiece, Tree, TreeOf, Fits, FitsPiece, RawText, Trim, Closes, Then, Else, TextNodes,
      TextPieces;
    var ns := TextNodes(text) + [TreeOf(p)];
    PrependFacts(text, p, ps, mode, !end.AtEnd?);
    AppendTwice(ns, Tree(ps), inElse, a, b);
    match end {
      case AtEnd =>
      case AtClose(raw) =>
        var rest := Parse(after, mode, inElse, a', b').rest;
        Reassociate(text, ShowPiece(p), Show(ps), Tag(raw) + rest);
      case AtElse(raw, more, closeRaw) =>
        var rest := Parse(after, mode, inElse, a', b').rest;
        Reassociate(text, ShowPiece(p), Show(ps), Tag(raw) + (Show(more) + (Tag(closeRaw) + rest)));
        NotInElse(a, b, ns, Tree(ps));
    }
  }

  lemma NotInElse(a: seq<Node>, b: seq<Node>, ns: seq<Node>, more: seq<Node>)
    ensures Then(a, ns, false) + more == a + (ns + more) && Else(b, ns, false) == b
  {
  }

  lemma AppendTwice(ns: seq<Node>, more: seq<Node>, inElse: bool, a: seq<Node>, b: seq<Node>)
    ensures Then(Then(a, ns, inElse), more, inElse) == Then(a, ns + more, inElse)
    ensures Else(Else(b, ns, inElse), more, inElse) == Else(b, ns + more, inElse)
  {
  }

  lemma Reassociate(a: string, b: string, c: string, d: string)
    ensures a + (b + (c + d)) == (a + (b + c)) + d
  {
  }

  lemma PrependFacts(text: string, p: Piece, ps: seq<Piece>, mode: Mode, closed: bool)
    requires !p.TextPiece? && FitsPiece(p, mode, true) && (text != "" ==> RawText(text, true)) && Fits(ps, mode, closed)
    ensures var all := TextPieces(text) + [p] + ps;
            && Fits(all, mode, closed)
            && Show(all) == text + (ShowPiece(p) + Show(ps))
            && Tree(all) == (TextNodes(text) + [TreeOf(p)]) + Tree(ps)
  {
    hide ShowPiece, TreeOf, FitsPiece, RawText, Fits, Show, Tree;
    FitsCons(p, ps, mode, closed);
    ShowsCons(p, ps);
    if text == "" {
      FromNothing([p] + ps);
    } else {
      var t := TextPiece(text);
      Assoc([t], [p], ps);
      Assoc([Text(text)], [TreeOf(p)], Tree(ps));
      ShowsCons(t, [p] + ps);
      TextShows(text);
      FitsText(text, [p] + ps, mode, closed);
    }
  }

  lemma ShowsCons(p: Piece, ps: seq<Piece>)
    ensures Show([p] + ps) == ShowPiece(p) + Show(ps) && Tree([p] + ps) == [TreeOf(p)] + Tree(ps)
  {
    assert ([p] + ps)[0] == p && ([p] + ps)[1..] == ps;
    ShowCons([p] + ps);
  }

  lemma FromNothing(ps: seq<Piece>)
    requires ps != []
    ensures [] + [ps[0]] + ps[1..] == ps
    ensures "" + Show(ps) == Show(ps) && [] + Tree(ps) == Tree(ps)
  {
  }

  lemma Assoc<T>(a: seq<T>, b: seq<T>, c: seq<T>)
    ensures (a + b) + c == a + (b + c)
  {
  }

  lemma TextShows(text: string)
    ensures ShowPiece(TextPiece(text)) == text && TreeOf(TextPiece(text)) == Text(text)
  {
  }

  lemma FitsCons(p: Piece, ps: seq<Piece>, mode: Mode, closed: bool)
    requires !p.TextPiece? && FitsPiece(p, mode, true) && Fits(ps, mode, closed)
    ensures Fits([p] + ps, mode, closed)
  {
    assert ([p] + ps)[1..] == ps;
    AnyClosing(p, mode, |[p] + ps| > 1 || closed);
  }

  lemma AnyClosing(p: Piece, mode: Mode, closed: bool)
    requires !p.TextPiece? && FitsPiece(p, mode, true)
    ensures FitsPiece(p, mode, closed)
  {
  }

  lemma FitsText(text: string, ps: seq<Piece>, mode: Mode, closed: bool)
    requires RawText(text, true) && ps != [] && !ps[0].TextPiece? && Fits(ps, mode, closed)
    ensures Fits([TextPiece(text)] + ps, mode, closed)
  {
    assert ([TextPiece(text)] + ps)[1..] == ps;
  }

  /** Whatever the parser accepts is made of well-formed pieces, and they are what it read. */
  lemma {:induction false} Decomposes(s: string, mode: Mode, inElse: bool, a: seq<Node>, b: seq<Node>)
    returns (ps: seq<Piece>, end: End)
    requires Parse(s, mode, inElse, a, b).Done? && (inElse ==> mode.InIf?)
    ensures Derives(s, mode, inElse, a, b, ps, end)
    decreases |s|, 1
  {
    hide Scan, Dispatch, Derives, Find, Trim, RawTag, RawText, Then, Else, TextNodes;
    if Scan(s).NoTag? {
      ps, end := TextPieces(s), AtEnd;
      EndsHere(s, inElse, a, b);
    } else {
      var raw := ScanRaw(s);
      AtTag(s, mode, inElse, a, b);
      ps, end := DecomposesTag(s, raw, mode, inElse, a, b);
    }
  }

  lemma EndsHere(s: string, inElse: bool, a: seq<Node>, b: seq<Node>)
    requires Scan(s).NoTag?
    ensures Derives(s, Top, inElse, a, b, TextPieces(s), AtEnd)
  {
    hide Find, Dispatch, Fits, Show, Tree, Then, Else;
    FitsAlone(s, Top, false);
  }

  lemma {:induction false} DecomposesTag(s: string, raw: string, mode: Mode, inElse: bool, a: seq<Node>, b: seq<Node>)
    returns (ps: seq<Piece>, end: End)
    requires Scan(s).TagFound? && Parse(s, mode, inElse, a, b).Done? && (inElse ==> mode.InIf?)
    requires Trim(raw) == Scan(s).tag && RawTag(raw) && s == Scan(s).text + (Tag(raw) + Scan(s).rest)
    requires Scan(s).text != "" ==> RawText(Scan(s).text, true)
    requires var ns := TextNodes(Scan(s).text);
             Parse(s, mode, inElse, a, b)
             == Dispatch(Trim(raw), Scan(s).rest, mode, inElse, Then(a, ns, inElse), Else(b, ns, inElse))
    ensures Derives(s, mode, inElse, a, b, ps, end)
    decreases |s|, 0
  {
    hide Scan, Parse, Derives, Find, Trim, RawTag, RawText, Then, Else, TextNodes, OpenerOf, TextPieces, Tag, EndTag;
    var text, tag, rest := Scan(s).text, Scan(s).tag, Scan(s).rest;
    var ns := TextNodes(text);
    var a', b' := Then(a, ns, inElse), Else(b, ns, inElse);
    if !mode.Top? && tag == EndTag(mode) {
      ps, end := TextPieces(text), AtClose(raw);
      ClosesHere(s, text, raw, rest, mode, inElse, a, b);
    } else if mode.InIf? && tag == "else" {
      var more, stop := Decomposes(rest, mode, true, a', b');
      ps, end := TextPieces(text), AtElse(raw, more, ElseEnds(rest, mode, a', b', more, stop));
      ElseHere(s, text, raw, rest, mode, a, b, more, stop.raw);
    } else if OpenerOf(tag) != NoOpener {
      ps, end := DecomposesBlock(s, text, raw, rest, mode, inElse, a, b);
    } else {
      var p := VarPiece(raw, tag);
      AppendTwice(ns, [Var(tag)], inElse, a, b);
      var more, stop := Decomposes(rest, mode, inElse, Then(a', [Var(tag)], inElse), Else(b', [Var(tag)], inElse));
      Prepends(s, mode, inElse, a, b, text, p, rest, Then(a', [Var(tag)], inElse), Else(b', [Var(tag)], inElse),
               more, stop);
      ps, end := TextPieces(text) + [p] + more, stop;
    }
  }

  /** An else part cannot have another. */
  ghost function ElseEnds(s: string, mode: Mode, a: seq<Node>, b: seq<Node>, ps: seq<Piece>, end: End): (raw: string)
    requires mode.InIf? && Derives(s, mode, true, a, b, ps, end)
    ensures end == AtClose(raw)
  {
    end.raw
  }

  lemma FitsAlone(text: string, mode: Mode, closed: bool)
    requires text != "" ==> RawText(text, closed)
    ensures Fits(TextPieces(text), mode, closed) && Show(TextPieces(text)) == text
    ensures Tree(TextPieces(text)) == TextNodes(text)
  {
    hide Find, RawText, Fits, Show, Tree, ShowPiece, TreeOf;
    if text == "" {
      NothingFits(mode, closed);
    } else {
      TextFits(text, mode, closed);
      TextShows(text);
      AloneFits(TextPiece(text), mode, closed);
    }
  }

  lemma NothingFits(mode: Mode, closed: bool)
    ensures Fits([], mode, closed) && Show([]) == "" && Tree([]) == []
  {
  }

  lemma TextFits(text: string, mode: Mode, closed: bool)
    requires RawText(text, closed)
    ensures FitsPiece(TextPiece(text), mode, closed)
  {
  }

  lemma AloneFits(p: Piece, mode: Mode, closed: bool)
    requires FitsPiece(p, mode, closed)
    ensures Fits([p], mode, closed) && Show([p]) == ShowPiece(p) && Tree([p]) == [TreeOf(p)]
  {
    hide FitsPiece, ShowPiece, TreeOf;
    var ps := [p];
    assert ps[0] == p && ps[1..] == [];
    NothingFits(mode, closed);
    ShowCons(ps);
    assert ShowPiece(p) + "" == ShowPiece(p);
  }

  lemma ClosesHere(s: string, text: string, raw: string, rest: string, mode: Mode, inElse: bool,
                   a: seq<Node>, b: seq<Node>)
    requires !mode.Top? && Closes(raw, mode) && (text != "" ==> RawText(text, true)) && s == text + (Tag(raw) + rest)
    requires Parse(s, mode, inElse, a, b)
          == Done(Then(a, TextNodes(text), inElse), Else(b, TextNodes(text), inElse), rest)
    ensures Derives(s, mode, inElse, a, b, TextPieces(text), AtClose(raw))
  {
    hide Parse, RawText, Closes, Then, Else, Fits, Show, Tree, TextPieces, TextNodes, Tag;
    FitsAlone(text, mode, true);
  }

  lemma ElseHere(s: string, text: string, raw: string, rest: string, mode: Mode, a: seq<Node>, b: seq<Node>,
                 more: seq<Piece>, closeRaw: string)
    requires mode.InIf? && RawTag(raw) && Trim(raw) == "else" && (text != "" ==> RawText(text, true))
    requires s == text + (Tag(raw) + rest)
    requires var ns := TextNodes(text);
             && Derives(rest, mode, true, Then(a, ns, false), Else(b, ns, false), more, AtClose(closeRaw))
             && Parse(s, mode, false, a, b) == Parse(rest, mode, true, Then(a, ns, false), Else(b, ns, false))
    ensures Derives(s, mode, false, a, b, TextPieces(text), AtElse(raw, more, closeRaw))
  {
    hide Parse, RawText, RawTag, Trim, Closes, Fits, Show, Tree, TextPieces, TextNodes, Tag;
    FitsAlone(text, mode, true);
  }

  lemma {:induction false} DecomposesBlock(s: string, text: string, raw: string, rest: string, mode: Mode, inElse: bool,
                                           a: seq<Node>, b: seq<Node>)
    returns (ps: seq<Piece>, end: End)
    requires RawTag(raw) && OpenerOf(Trim(raw)) != NoOpener && (text != "" ==> RawText(text, true))
    requires s == text + (Tag(raw) + rest) && Parse(s, mode, inElse, a, b).Done? && (inElse ==> mode.InIf?)
    requires var ns := TextNodes(text);
             Parse(s, mode, inElse, a, b)
             == Dispatch(Trim(raw), rest, mode, inElse, Then(a, ns, inElse), Else(b, ns, inElse))
    ensures Derives(s, mode, inElse, a, b, ps, end)
    decreases |rest|, 2
  {
    hide Parse, Derives, Find, Trim, RawTag, RawText, Then, Else, TextNodes, OpenerOf, TextPieces, Tag, EndTag,
      Dispatch;
    var ns := TextNodes(text);
    var a', b' := Then(a, ns, inElse), Else(b, ns, inElse);
    var o := OpenerOf(Trim(raw));
    AtOpener(Trim(raw), rest, mode, inElse, a', b');
    var sub := Parse(rest, Inner(o), false, [], []);
    var inside, stop := Decomposes(rest, Inner(o), false, [], []);
    SubConsumes(rest, Inner(o));
    var node := [NodeFor(o, sub.thenBody, sub.elseBody)];
    var a2, b2 := Then(a', node, inElse), Else(b', node, inElse);
    var more, last := Decomposes(sub.rest, mode, inElse, a2, b2);
    var p := BlockPiece(rest, raw, inside, stop, mode);
    AppendTwice(ns, node, inElse, a, b);
    assert s == text + (ShowPiece(p) + sub.rest);
    Prepends(s, mode, inElse, a, b, text, p, sub.rest, a2, b2, more, last);
    ps, end := TextPieces(text) + [p] + more, last;
  }

  /** The block that was read, as a piece. */
  lemma BlockPiece(rest: string, raw: string, inside: seq<Piece>, stop: End, mode: Mode) returns (p: Piece)
    requires RawTag(raw) && OpenerOf(Trim(raw)) != NoOpener
    requires var o := OpenerOf(Trim(raw)); Derives(rest, Inner(o), false, [], [], inside, stop)
    ensures !p.TextPiece? && FitsPiece(p, mode, true)
    ensures var o := OpenerOf(Trim(raw));
            var sub := Parse(rest, Inner(o), false, [], []);
            TreeOf(p) == NodeFor(o, sub.thenBody, sub.elseBody) && Tag(raw) + rest == ShowPiece(p) + sub.rest
  {
    hide Parse, Find, Trim, RawTag, Fits, Show, Tree, Tag, OpenerOf, EndTag;
    var o := OpenerOf(Trim(raw));
    var sub := Parse(rest, Inner(o), false, [], []);
    Branches(Tree(inside), []);
    match o {
      case OpenIf(c, invert) =>
        match stop {
          case AtClose(closeRaw) =>
            p := IfPiece(raw, c, invert, inside, None, [], closeRaw);
            NoPieces(InIf(invert));
            JoinPlain(Tag(raw), Show(inside), Tag(closeRaw), sub.rest);
          case AtElse(elseRaw, more, closeRaw) =>
            p := IfPiece(raw, c, invert, inside, Some(elseRaw), more, closeRaw);
            JoinElse(Tag(raw), Show(inside), Tag(elseRaw), Show(more), Tag(closeRaw), sub.rest);
            assert [] + Tree(inside) == Tree(inside) && [] + Tree(more) == Tree(more);
        }
      case OpenEach(c) =>
        p := EachPiece(raw, c, inside, stop.raw);
        JoinPlain(Tag(raw), Show(inside), Tag(stop.raw), sub.rest);
    }
  }

  lemma NoPieces(mode: Mode)
    ensures Fits([], mode, true) && Tree([]) == []
  {
  }

  lemma JoinPlain(tag: string, body: string, close: string, rest: string)
    ensures tag + (body + (close + rest)) == (tag + (body + close)) + rest
    ensures tag + (body + (close + rest)) == (tag + (body + ("" + close))) + rest
  {
    assert "" + close == close;
    Reassociate(tag, body, close, rest);
  }

  lemma JoinElse(tag: string, body: string, els: string, more: string, close: string, rest: string)
    ensures tag + (body + (els + (more + (close + rest)))) == (tag + (body + ((els + more) + close))) + rest
  {
  }

  // ---------------------------------------------------------------------
  // The grammar theorem
  // ---------------------------------------------------------------------

  /** A well-formed template is read as its tree. */
  lemma {:induction false} TemplatesAreRead(ps: seq<Piece>)
    requires Fits(ps, Top, false)
    ensures Parse(Show(ps), Top, false, [], []) == Done(Tree(ps), [], "")
  {
    hide Fits, Show, Tree;
    assert Show(ps) + "" == Show(ps);
    ReadsBack(ps, "", Top, false, [], []);
    Branches(Tree(ps), []);
    ScanEmpty();
  }

  /**
   The parser accepts exactly the well-formed templates, errors on everything
   else, and returns the tree of what it accepts.
   */
  lemma AcceptsExactly(s: string)
    ensures Parse(s, Top, false, [], []).Done? <==> exists ps :: Fits(ps, Top, false) && Show(ps) == s
    ensures forall ps :: Fits(ps, Top, false) && Show(ps) == s ==>
              Parse(s, Top, false, [], []) == Done(Tree(ps), [], "")
  {
    hide Parse, Fits, Show, Tree;
    forall ps | Fits(ps, Top, false) && Show(ps) == s
      ensures Parse(s, Top, false, [], []) == Done(Tree(ps), [], "")
    {
      TemplatesAreRead(ps);
    }
    if Parse(s, Top, false, [], []).Done? {
      var ps, end := Decomposes(s, Top, false, [], []);
      assert Fits(ps, Top, false) && Show(ps) == s;
    }
  }

  // ---------------------------------------------------------------------
  // Printing, with any padding
  // ---------------------------------------------------------------------

  /** unicode.IsSpace on ASCII. */
  lemma AsciiSpaces(c: char)
    requires c < '\U{0080}'
    ensures IsSpace(c) <==> c in {' ', '\t', '\n', '\U{000B}', '\U{000C}', '\r'}
  {
  }

  /** Spaces, tabs, carriage returns and line feeds. */
  predicate Blank(s: string) {
    forall c <- s :: c in {' ', '\t', '\r', '\n'}
  }

  ghost predicate Padded(raw: string, content: string) {
    exists l: string, r: string :: Blank(l) && Blank(r) && raw == l + (content + r)
  }

  /** No closing pair, and neither padding nor a brace to run into the closing ones. */
  predicate Bare(s: string) {
    Find(s, '}') == |s| && (s == "" || (s[|s| - 1] != '}' && !IsSpace(s[|s| - 1]) && !IsSpace(s[0])))
  }

  predicate BarePath(p: string) {
    Bare(p) && !("#if " <= p) && !("#unless " <= p) && !("#each " <= p) && !("/" <= p) && p != "else"
  }

  predicate BareArgument(c: string) {
    Bare(c) && c != ""
  }

  /** `closed`: a tag follows the list, as it always does inside a block. */
  predicate Canonical(ns: seq<Node>, closed: bool)
    decreases ns, 0
  {
    ns == [] ||
    (CanonicalNode(ns[0], |ns| > 1 || closed) && Canonical(ns[1..], closed)
     && (|ns| > 1 && ns[0].Text? ==> !ns[1].Text?))
  }

  predicate CanonicalNode(n: Node, closed: bool)
    decreases n, 1
  {
    match n
    case Text(t) => RawText(t, closed)
    case Var(p) => BarePath(p)
    case If(c, _, t, e) => BareArgument(c) && Canonical(t, true) && Canonical(e, true)
    case Each(c, body) => BareArgument(c) && Canonical(body, true)
  }

  /** The pieces print the nodes: any blanks inside each tag, and between an opener's word and its argument. */
  ghost predicate Prints(ps: seq<Piece>, ns: seq<Node>)
    decreases ps, 0
  {
    |ps| == |ns| && (ps != [] ==> PrintsNode(ps[0], ns[0]) && Prints(ps[1..], ns[1..]))
  }

  ghost predicate Opens(raw: string, word: string, argument: string) {
    exists gap: string :: Blank(gap) && Padded(raw, word + (gap + argument))
  }

  ghost predicate PrintsNode(p: Piece, n: Node)
    decreases p, 1
  {
    match (p, n)
    case (TextPiece(t), Text(u)) => t == u
    case (VarPiece(raw, path), Var(q)) => path == q && Padded(raw, q)
    case (IfPiece(raw, c, invert, t, elseRaw, e, closeRaw), If(d, invert', u, f)) =>
      && c == d && invert == invert' && Prints(t, u) && Prints(e, f)
      && Opens(raw, if invert then "#unless " else "#if ", d)
      && (elseRaw.None? ==> f == []) && (elseRaw.Some? ==> Padded(elseRaw.value, "else"))
      && Padded(closeRaw, if invert then "/unless" else "/if")
    case (EachPiece(raw, c, body, closeRaw), Each(d, u)) =>
      c == d && Prints(body, u) && Opens(raw, "#each ", d) && Padded(closeRaw, "/each")
    case _ => false
  }

  lemma {:induction false} TrimLeftStrips(l: string, s: string)
    requires Blank(l) && (s == "" || !IsSpace(s[0]))
    ensures TrimLeft(l + s) == s
  {
    if l == "" {
      assert l + s == s;
    } else {
      assert l[0] in l && (l + s)[1..] == l[1..] + s;
      assert Blank(l[1..]) by { assert forall c <- l[1..] :: c in l; }
      TrimLeftStrips(l[1..], s);
    }
  }

  lemma {:induction false} TrimRightStrips(s: string, r: string)
    requires Blank(r) && (s == "" || !IsSpace(s[|s| - 1]))
    ensures TrimRight(s + r) == s
    decreases |r|
  {
    if r == "" {
      assert s + r == s;
    } else {
      var front := r[..|r| - 1];
      assert r[|r| - 1] in r && (s + r)[..|s + r| - 1] == s + front;
      assert Blank(front) by { assert forall c <- front :: c in r; }
      TrimRightStrips(s, front);
    }
  }

  lemma TrimStrips(l: string, s: string, r: string)
    requires Blank(l) && Blank(r) && (s == "" || (!IsSpace(s[0]) && !IsSpace(s[|s| - 1])))
    ensures Trim(l + (s + r)) == s
  {
    hide Blank, IsSpace;
    if s == "" {
      assert l + (s + r) == (l + r) + "" && (l + r) == "" + (l + r);
      BlankJoins(l, r);
      TrimLeftStrips(l + r, "");
      TrimRightStrips("", "");
      assert "" + "" == "";
    } else {
      assert (s + r)[0] == s[0];
      TrimLeftStrips(l, s + r);
      TrimRightStrips(s, r);
    }
  }

  lemma BlankJoins(l: string, r: string)
    requires Blank(l) && Blank(r)
    ensures Blank(l + r) && Blank("")
  {
  }

  lemma {:induction false} SearchPasses(l: string, s: string)
    requires '}' !in l && Find(s, '}') == |s|
    ensures Find(l + s, '}') == |l + s|
  {
    if l == "" {
      assert l + s == s;
    } else {
      assert l + s == [l[0]] + (l[1..] + s);
      assert l[0] in l;
      SearchPasses(l[1..], s);
      FindSkips(l[0], l[1..] + s, '}');
    }
  }

  lemma {:induction false} SearchEnds(s: string, r: string)
    requires Find(s, '}') == |s| && (s == "" || s[|s| - 1] != '}') && '}' !in r
    ensures Find(s + r, '}') == |s + r|
  {
    forall k | 0 <= k < |s + r| - 1 ensures !((s + r)[k] == '}' && (s + r)[k + 1] == '}') {
      if k + 1 >= |s| { assert k + 1 == |s| + (k + 1 - |s|) && (s + r)[k + 1] == r[k + 1 - |s|]; }
    }
    NothingFound(s + r, '}');
  }

  /** A padded bare content is a raw tag and trims to it. */
  lemma PaddedTag(raw: string, content: string)
    requires Padded(raw, content) && Bare(content)
    ensures RawTag(raw) && Trim(raw) == content
  {
    hide Find, Trim;
    var l, r :| Blank(l) && Blank(r) && raw == l + (content + r);
    TrimStrips(l, content, r);
    NoBrace(l);
    NoBrace(r);
    SearchEnds(content, r);
    SearchPasses(l, content + r);
    if raw != "" {
      LastOf(l, content, r);
    }
  }

  lemma NoBrace(s: string)
    requires Blank(s)
    ensures '}' !in s && (s != "" ==> s[|s| - 1] != '}')
  {
    if s != "" { assert s[|s| - 1] in s; }
  }

  lemma LastOf(l: string, s: string, r: string)
    requires l + (s + r) != ""
    ensures var raw := l + (s + r);
            raw[|raw| - 1] == if r != "" then r[|r| - 1] else if s != "" then s[|s| - 1] else l[|l| - 1]
  {
  }

  lemma OpenerReads(raw: string, word: string, argument: string)
    requires word in {"#if ", "#unless ", "#each "} && Opens(raw, word, argument) && BareArgument(argument)
    ensures RawTag(raw)
    ensures OpenerOf(Trim(raw)) == if word == "#if " then OpenIf(argument, false)
                                   else if word == "#unless " then OpenIf(argument, true) else OpenEach(argument)
  {
    hide Find, Trim, OpenerOf, RawTag, IsSpace, Padded;
    var gap :| Blank(gap) && Padded(raw, word + (gap + argument));
    OpenerIsBare(word, gap, argument);
    PaddedTag(raw, word + (gap + argument));
    OpenerByWord(word, gap + argument);
    TrimStrips(gap, argument, "");
    assert gap + (argument + "") == gap + argument;
  }

  lemma OpenerIsBare(word: string, gap: string, argument: string)
    requires word in {"#if ", "#unless ", "#each "} && Blank(gap) && BareArgument(argument)
    ensures Bare(word + (gap + argument))
  {
    hide Find, Blank;
    NoBrace(gap);
    SearchPasses(gap, argument);
    SearchPasses(word, gap + argument);
    LastOf(word, gap, argument);
    assert (word + (gap + argument))[0] == '#';
  }

  lemma OpenerByWord(word: string, tail: string)
    requires word in {"#if ", "#unless ", "#each "}
    ensures OpenerOf(word + tail) == if word == "#if " then OpenIf(Trim(tail), false)
                                     else if word == "#unless " then OpenIf(Trim(tail), true) else OpenEach(Trim(tail))
  {
    hide Trim;
    assert (word + tail)[|word|..] == tail && (word + tail)[1] == word[1];
  }

  /** A printed canonical list is well formed wherever it stands, and its tree is the list. */
  lemma {:induction false} PrintsFit(ps: seq<Piece>, ns: seq<Node>, mode: Mode, closed: bool)
    requires Prints(ps, ns) && Canonical(ns, closed)
    ensures Fits(ps, mode, closed) && Tree(ps) == ns
    decreases ps, 0
  {
    hide FitsPiece, CanonicalNode, PrintsNode, TreeOf;
    if ps != [] {
      PieceFits(ps[0], ns[0], mode, |ps| > 1 || closed);
      PrintsFit(ps[1..], ns[1..], mode, closed);
      SameKind(ps[0], ns[0]);
      if |ps| > 1 {
        SameKind(ps[1], ns[1]);
      }
    }
  }

  lemma SameKind(p: Piece, n: Node)
    requires PrintsNode(p, n)
    ensures p.TextPiece? <==> n.Text?
  {
  }

  lemma {:induction false} PieceFits(p: Piece, n: Node, mode: Mode, closed: bool)
    requires PrintsNode(p, n) && CanonicalNode(n, closed)
    ensures FitsPiece(p, mode, closed) && TreeOf(p) == n
    decreases p, 1
  {
    hide Prints, Canonical, Fits, Tree, Find, Trim, RawTag, RawText, Opens, Padded, OpenerOf;
    match p {
      case TextPiece(_) =>
      case VarPiece(raw, path) =>
        PaddedTag(raw, path);
        PlainPath(path, mode);
      case IfPiece(raw, c, invert, t, elseRaw, e, closeRaw) =>
        OpenerReads(raw, if invert then "#unless " else "#if ", c);
        PrintsFit(t, n.thenBody, InIf(invert), true);
        PrintsFit(e, n.elseBody, InIf(invert), true);
        KeywordIsBare(EndTag(InIf(invert)));
        PaddedTag(closeRaw, EndTag(InIf(invert)));
        match elseRaw {
          case Some(r) => KeywordIsBare("else"); PaddedTag(r, "else");
          case None => NothingPrinted(e, n.elseBody);
        }
      case EachPiece(raw, c, body, closeRaw) =>
        OpenerReads(raw, "#each ", c);
        PrintsFit(body, n.body, InEach, true);
        KeywordIsBare("/each");
        PaddedTag(closeRaw, "/each");
    }
  }

  lemma NothingPrinted(ps: seq<Piece>, ns: seq<Node>)
    requires Prints(ps, ns) && ns == []
    ensures ps == []
  {
  }

  lemma PlainPath(p: string, mode: Mode)
    requires BarePath(p)
    ensures PathIn(p, mode)
  {
    hide Bare, Trim;
    if !mode.Top? { assert EndTag(mode)[..1] == "/"; }
  }

  lemma KeywordIsBare(s: string)
    requires s in {"else", "/if", "/unless", "/each"}
    ensures Bare(s)
  {
    hide Find;
    assert '}' !in s;
    NoBraceAtAll(s);
  }

  lemma NoBraceAtAll(s: string)
    requires '}' !in s
    ensures Find(s, '}') == |s|
  {
    hide Find;
    NothingFound(s, '}');
  }

  /** Printing a canonical template, with whatever padding, and parsing it gives the same tree, at any depth. */
  lemma ParseUndoesPrint(ns: seq<Node>, ps: seq<Piece>)
    requires Canonical(ns, false) && Prints(ps, ns)
    ensures Parse(Show(ps), Top, false, [], []) == Done(ns, [], "")
  {
    PrintsFit(ps, ns, Top, false);
    TemplatesAreRead(ps);
  }

  // ---------------------------------------------------------------------
  // The plain print
  // ---------------------------------------------------------------------

  /** Without padding, and with an else part only where there is something in it. */
  function Plain(ns: seq<Node>): seq<Piece>
    decreases ns, 0
  {
    if ns == [] then [] else [PlainNode(ns[0])] + Plain(ns[1..])
  }

  function PlainNode(n: Node): Piece
    decreases n, 1
  {
    match n
    case Text(t) => TextPiece(t)
    case Var(p) => VarPiece(p, p)
    case If(c, invert, t, e) =>
      IfPiece((if invert then "#unless " else "#if ") + c, c, invert, Plain(t),
              if e == [] then None else Some("else"), Plain(e), if invert then "/unless" else "/if")
    case Each(c, body) => EachPiece("#each " + c, c, Plain(body), "/each")
  }

  lemma Unpadded(s: string)
    ensures Padded(s, s)
  {
    assert Blank("") && s == "" + (s + "");
  }

  lemma UnpaddedOpener(word: string, argument: string)
    ensures Opens(word + argument, word, argument)
  {
    assert Blank("") && word + argument == word + ("" + argument);
    Unpadded(word + argument);
  }

  /** Every list has a print. */
  lemma {:induction false} PlainPrints(ns: seq<Node>)
    ensures Prints(Plain(ns), ns)
    decreases ns, 0
  {
    hide PrintsNode, PlainNode;
    if ns != [] {
      PlainNodePrints(ns[0]);
      PlainPrints(ns[1..]);
      assert Plain(ns)[0] == PlainNode(ns[0]) && Plain(ns)[1..] == Plain(ns[1..]);
    }
  }

  lemma {:induction false} PlainNodePrints(n: Node)
    ensures PrintsNode(PlainNode(n), n)
    decreases n, 1
  {
    hide Prints, Padded, Opens;
    match n {
      case Text(_) =>
      case Var(p) => Unpadded(p);
      case If(c, invert, t, e) =>
        UnpaddedOpener(if invert then "#unless " else "#if ", c);
        PlainPrints(t);
        PlainPrints(e);
        Unpadded("else");
        Unpadded(if invert then "/unless" else "/if");
      case Each(c, body) =>
        UnpaddedOpener("#each ", c);
        PlainPrints(body);
        Unpadded("/each");
    }
  }
}
