/** The documentation checker's source panels: the scanner its regular expression
    denotes, and the refresh of stale panel bodies. */
module Panels {
  import opened Machine
  import opened Html

  // The opening is written in parts so that its two `<` are easy to see.
  const OPEN_DETAILS := "details class="
  const OPEN_CLASS := "\"source-panel\">"
  const OPEN_SUMMARY := "summary>Show source: "
  const OPEN := "<" + OPEN_DETAILS + OPEN_CLASS + "<" + OPEN_SUMMARY
  const MID := "<" + "/summary>" + "<" + "pre>" + "<" + "code class=\"language-"
  const LANG_END := "\">"
  const TERM := "</code></pre></details>"

  /** Length of the longest prefix without `stop`. */
  function Run(s: string, stop: char): (n: nat)
    ensures n <= |s| && (n < |s| ==> s[n] == stop)
    ensures forall i | 0 <= i < n :: s[i] != stop
  {
    if s == "" || s[0] == stop then 0 else 1 + Run(s[1..], stop)
  }

  datatype Head = Head(len: nat, path: string)

  /** Length of a language name and the end of the opening tag after it. */
  function ParseLang(s: string): (r: Option<nat>)
    ensures r.Some? ==> |LANG_END| < r.value <= |s|
  {
    var l := Run(s, '"');
    if l == 0 || !StartsWith(s[l..], LANG_END) then None else Some(l + |LANG_END|)
  }

  function ParsePath(s: string): (r: Option<Head>)
    ensures r.Some? ==> 0 < r.value.len <= |s|
  {
    var p := Run(s, '<');
    if p == 0 || !StartsWith(s[p..], MID) then None
    else
      match ParseLang(s[p..][|MID|..])
      case None => None
      case Some(n) => Some(Head(p + |MID| + n, s[..p]))
  }

  /** Everything a match needs before its body. Each bracketed run is followed by
      the character it excludes, so there is only one way to match it. */
  function ParseHead(s: string): (r: Option<Head>)
    ensures r.Some? ==> |OPEN| < r.value.len <= |s| && OPEN <= s
  {
    if !StartsWith(s, OPEN) then None
    else
      match ParsePath(s[|OPEN|..])
      case None => None
      case Some(h) => Some(h.(len := |OPEN| + h.len))
  }

  /** Where the terminator first occurs. */
  function FindTerm(s: string): (r: Option<nat>)
    ensures r.Some? ==> r.value <= |s| && StartsWith(s[r.value..], TERM)
  {
    if StartsWith(s, TERM) then Some(0)
    else if s == "" then None
    else
      match FindTerm(s[1..])
      case None => None
      case Some(i) => assert s[1..][i..] == s[1 + i..]; Some(1 + i)
  }

  datatype Found = Found(open: string, path: string, code: string)

  /** The regular expression matched at the start of `s`. */
  function MatchAt(s: string): (r: Option<Found>)
    ensures r.Some? ==> |OPEN| < |r.value.open| && |r.value.open| + |r.value.code| + |TERM| <= |s| && OPEN <= r.value.open
  {
    var head := ParseHead(s);
    if head.None? then None
    else
      var body := s[head.value.len..];
      var end := FindTerm(body);
      if end.None? then None
      else Some(Found(s[..head.value.len], head.value.path, body[..end.value]))
  }

  datatype Piece = Text(c: char) | Panel(open: string, path: string, code: string)

  function PrintPiece(p: Piece): string {
    match p
    case Text(c) => [c]
    case Panel(open, _, code) => open + code + TERM
  }

  function Print(ps: seq<Piece>): string {
    if ps == [] then "" else PrintPiece(ps[0]) + Print(ps[1..])
  }

  /** The non-overlapping matches `re.sub` visits, left to right, and the text between. */
  function Scan(s: string): seq<Piece>
    decreases |s|
  {
    if s == "" then []
    else
      match MatchAt(s)
      case Some(m) => [Panel(m.open, m.path, m.code)] + Scan(s[|m.open| + |m.code| + |TERM|..])
      case None => [Text(s[0])] + Scan(s[1..])
  }

  /** Text of each existing source file, by the path a panel gives. */
  type Tree = map<string, string>

  predicate Stale(p: Piece, tree: Tree) {
    p.Panel? && p.path in tree && p.code != Escape(tree[p.path])
  }

  function RewritePiece(p: Piece, tree: Tree): (r: Piece)
    ensures p.Text? ==> r == p
    ensures p.Panel? ==> r.Panel? && r.open == p.open && r.path == p.path
  {
    if Stale(p, tree) then p.(code := Escape(tree[p.path])) else p
  }

  function Rewrite(ps: seq<Piece>, tree: Tree): (r: seq<Piece>)
    ensures |r| == |ps|
    ensures forall i | 0 <= i < |ps| :: r[i] == RewritePiece(ps[i], tree)
  {
    if ps == [] then [] else [RewritePiece(ps[0], tree)] + Rewrite(ps[1..], tree)
  }

  datatype Problem = Missing(path: string) | Drift(path: string)

  function PieceProblems(p: Piece, tree: Tree): seq<Problem> {
    if p.Text? then []
    else if p.path !in tree then [Missing(p.path)]
    else if Stale(p, tree) then [Drift(p.path)]
    else []
  }

  function Problems(ps: seq<Piece>, tree: Tree): seq<Problem> {
    if ps == [] then [] else PieceProblems(ps[0], tree) + Problems(ps[1..], tree)
  }

  function Refresh(doc: string, tree: Tree): string {
    Print(Rewrite(Scan(doc), tree))
  }

  // ----- the scanner is the regular expression

  /** What the pattern means: an opening, a path without `<`, a language without a
      quote, and the shortest body before a terminator. */
  ghost predicate Matches(s: string, path: string, lang: string, code: string, rest: string) {
    && s == OPEN + (path + (MID + (lang + (LANG_END + (code + (TERM + rest))))))
    && path != "" && '<' !in path && lang != "" && '"' !in lang
    && forall k | 0 <= k < |code| :: !StartsWith((code + (TERM + rest))[k..], TERM)
  }

  lemma RunExact(a: string, b: string, stop: char)
    requires stop !in a && b != "" && b[0] == stop
    ensures Run(a + b, stop) == |a|
  {
    assert forall i | 0 <= i < |a| :: (a + b)[i] == a[i];
    assert (a + b)[|a|] == stop;
  }

  lemma PrefixOf(a: string, b: string)
    ensures StartsWith(a + b, a) && (a + b)[|a|..] == b && (a + b)[..|a|] == a
  {
  }

  lemma {:induction false} FindTermExact(code: string, rest: string)
    requires forall k | 0 <= k < |code| :: !StartsWith((code + (TERM + rest))[k..], TERM)
    ensures FindTerm(code + (TERM + rest)) == Some(|code|)
  {
    hide OPEN, MID, LANG_END, TERM;
    var s := code + (TERM + rest);
    if code == "" {
      assert s == TERM + rest;
      PrefixOf(TERM, rest);
    } else {
      assert s[0..] == s && !StartsWith(s[0..], TERM);
      assert s[1..] == code[1..] + (TERM + rest);
      forall k | 0 <= k < |code[1..]|
        ensures !StartsWith((code[1..] + (TERM + rest))[k..], TERM)
      {
        assert (code[1..] + (TERM + rest))[k..] == s[k + 1..];
      }
      FindTermExact(code[1..], rest);
    }
  }

  lemma {:induction false} FindTermFirst(s: string, k: nat)
    requires FindTerm(s).Some? && k < FindTerm(s).value
    ensures !StartsWith(s[k..], TERM)
  {
    hide OPEN, MID, LANG_END, TERM;
    if k == 0 {
      assert s[0..] == s;
    } else {
      FindTermFirst(s[1..], k - 1);
      assert s[1..][k - 1..] == s[k..];
    }
  }

  lemma ParseLangComplete(lang: string, tail: string)
    requires lang != "" && '"' !in lang
    ensures ParseLang(lang + (LANG_END + tail)) == Some(|lang| + |LANG_END|)
  {
    assert LANG_END[0] == '"';
    hide LANG_END, Run;
    RunExact(lang, LANG_END + tail, '"');
    PrefixOf(lang, LANG_END + tail);
    PrefixOf(LANG_END, tail);
  }

  lemma ParsePathComplete(path: string, lang: string, tail: string)
    requires path != "" && '<' !in path && lang != "" && '"' !in lang
    ensures ParsePath(path + (MID + (lang + (LANG_END + tail))))
            == Some(Head(|path| + |MID| + |lang| + |LANG_END|, path))
  {
    assert MID[0] == '<';
    hide MID, LANG_END, Run, ParseLang;
    var t2 := lang + (LANG_END + tail);
    RunExact(path, MID + t2, '<');
    PrefixOf(path, MID + t2);
    PrefixOf(MID, t2);
    ParseLangComplete(lang, tail);
  }

  lemma Concat5(a: string, b: string, c: string, d: string, e: string, tail: string)
    ensures a + (b + (c + (d + (e + tail)))) == (a + (b + (c + (d + e)))) + tail
  {
  }

  lemma ParseHeadComplete(path: string, lang: string, tail: string)
    requires path != "" && '<' !in path && lang != "" && '"' !in lang
    ensures var s := OPEN + (path + (MID + (lang + (LANG_END + tail))));
            var open := OPEN + (path + (MID + (lang + LANG_END)));
            ParseHead(s) == Some(Head(|open|, path)) && s == open + tail
  {
    hide OPEN, MID, LANG_END, ParsePath;
    PrefixOf(OPEN, path + (MID + (lang + (LANG_END + tail))));
    ParsePathComplete(path, lang, tail);
    Concat5(OPEN, path, MID, lang, LANG_END, tail);
  }

  /** Whatever text has the shape of the pattern is matched, with its own parts. */
  lemma MatchComplete(s: string, path: string, lang: string, code: string, rest: string)
    requires Matches(s, path, lang, code, rest)
    ensures MatchAt(s) == Some(Found(OPEN + (path + (MID + (lang + LANG_END))), path, code))
  {
    hide OPEN, MID, LANG_END, TERM, ParseHead;
    var tail := code + (TERM + rest);
    ParseHeadComplete(path, lang, tail);
    PrefixOf(OPEN + (path + (MID + (lang + LANG_END))), tail);
    FindTermExact(code, rest);
    PrefixOf(code, TERM + rest);
  }

  lemma PrefixParts(s: string, prefix: string)
    requires StartsWith(s, prefix)
    ensures s == prefix + s[|prefix|..]
  {
  }

  lemma ParseHeadSound(s: string) returns (lang: string)
    requires ParseHead(s).Some?
    ensures var h := ParseHead(s).value;
            && h.path != "" && '<' !in h.path && lang != "" && '"' !in lang
            && s[..h.len] == OPEN + (h.path + (MID + (lang + LANG_END)))
  {
    hide OPEN, MID, LANG_END, TERM;
    var s1 := s[|OPEN|..];
    var p := Run(s1, '<');
    var s2 := s1[p..][|MID|..];
    lang := s2[..Run(s2, '"')];
    PrefixParts(s2[|lang|..], LANG_END);
    PrefixParts(s1[p..], MID);
    PrefixParts(s, OPEN);
    var tail := s2[|lang|..][|LANG_END|..];
    assert s2 == lang + (LANG_END + tail);
    assert s1 == s1[..p] + (MID + s2);
    var head := OPEN + (s1[..p] + (MID + (lang + LANG_END)));
    assert s == head + tail;
  }

  lemma TakeDrop(s: string, n: nat)
    requires n <= |s|
    ensures s == s[..n] + s[n..]
  {
  }

  lemma BodySplits(body: string)
    requires FindTerm(body).Some?
    ensures var n := FindTerm(body).value;
            body == body[..n] + TERM + body[n + |TERM|..]
  {
    hide TERM, FindTerm;
    var n := FindTerm(body).value;
    TakeDrop(body, n);
    TakeDrop(body[n..], |TERM|);
    assert body[n..][..|TERM|] == TERM;
    assert body[n..][|TERM|..] == body[n + |TERM|..];
  }

  /** Whatever is matched has the shape of the pattern. */
  lemma MatchSound(s: string) returns (lang: string, rest: string)
    requires MatchAt(s).Some?
    ensures var m := MatchAt(s).value;
            && Matches(s, m.path, lang, m.code, rest)
            && m.open == OPEN + (m.path + (MID + (lang + LANG_END)))
            && rest == s[|m.open| + |m.code| + |TERM|..]
  {
    hide OPEN, MID, LANG_END, TERM, ParseHead, FindTerm;
    var m := MatchAt(s).value;
    lang := ParseHeadSound(s);
    var body := s[|m.open|..];
    rest := body[|m.code| + |TERM|..];
    BodySplits(body);
    assert body == m.code + (TERM + rest);
    TakeDrop(s, |m.open|);
    forall k | 0 <= k < |m.code|
      ensures !StartsWith((m.code + (TERM + rest))[k..], TERM)
    {
      FindTermFirst(body, k);
    }
    assert s == OPEN + (m.path + (MID + (lang + (LANG_END + body))));
  }

  /** The text after the match at the start of `s`. */
  function Rest(s: string): string
    requires MatchAt(s).Some?
  {
    var m := MatchAt(s).value;
    s[|m.open| + |m.code| + |TERM|..]
  }

  function PanelAt(s: string): (p: Piece)
    requires MatchAt(s).Some?
    ensures p.Panel?
  {
    var m := MatchAt(s).value;
    Panel(m.open, m.path, m.code)
  }

  lemma MatchSplits(s: string)
    requires MatchAt(s).Some?
    ensures s == PrintPiece(PanelAt(s)) + Rest(s)
  {
    hide OPEN, MID, LANG_END, TERM, ParseHead, FindTerm;
    var m := MatchAt(s).value;
    var body := s[|m.open|..];
    TakeDrop(s, |m.open|);
    BodySplits(body);
    assert body[|m.code| + |TERM|..] == Rest(s);
    assert m.open + (m.code + TERM + Rest(s)) == m.open + m.code + TERM + Rest(s);
  }

  lemma PrintText(c: char)
    ensures PrintPiece(Text(c)) == [c]
  {
  }

  /** Scanning cuts the document up without losing or changing a character. */
  lemma {:induction false} ScanKeepsText(s: string)
    ensures Print(Scan(s)) == s
    decreases |s|
  {
    hide OPEN, MID, LANG_END, TERM, MatchAt, PrintPiece;
    if s == "" {
    } else {
      if MatchAt(s).Some? {
        MatchSplits(s);
        ScanKeepsText(Rest(s));
        assert Scan(s) == [PanelAt(s)] + Scan(Rest(s));
      } else {
        ScanKeepsText(s[1..]);
        assert Scan(s) == [Text(s[0])] + Scan(s[1..]);
        assert PrintPiece(Text(s[0])) == [s[0]] by { PrintText(s[0]); }
      }
    }
  }

  lemma RefreshMatch(s: string, tree: Tree)
    requires MatchAt(s).Some?
    ensures Scan(s) == [PanelAt(s)] + Scan(Rest(s))
    ensures Refresh(s, tree) == PrintPiece(RewritePiece(PanelAt(s), tree)) + Refresh(Rest(s), tree)
  {
    hide OPEN, MID, LANG_END, TERM, MatchAt, PrintPiece, RewritePiece;
    assert Scan(s)[1..] == Scan(Rest(s));
  }

  lemma RefreshText(s: string, tree: Tree)
    requires s != "" && MatchAt(s).None?
    ensures Scan(s) == [Text(s[0])] + Scan(s[1..])
    ensures Refresh(s, tree) == [s[0]] + Refresh(s[1..], tree)
  {
    hide OPEN, MID, LANG_END, TERM, MatchAt;
    assert Scan(s)[1..] == Scan(s[1..]);
  }

  /** How much of the document the first `i` pieces take. */
  function Offset(ps: seq<Piece>, i: nat): nat
    requires i <= |ps|
  {
    if i == 0 then 0 else |PrintPiece(ps[0])| + Offset(ps[1..], i - 1)
  }

  /** `p` is what the pattern makes of the text from a position on: exactly the match
      that starts there, or one character where none does. */
  predicate Fits(p: Piece, at: string) {
    match p
    case Text(c) => at != "" && MatchAt(at).None? && c == at[0]
    case Panel(open, path, code) => MatchAt(at) == Some(Found(open, path, code))
  }

  lemma OffsetCons(p: Piece, ps: seq<Piece>, i: nat)
    requires i <= |ps|
    ensures Offset([p] + ps, i + 1) == |PrintPiece(p)| + Offset(ps, i)
  {
    hide PrintPiece;
    assert ([p] + ps)[1..] == ps;
  }

  lemma DropTwice(s: string, m: nat, n: nat)
    requires m + n <= |s|
    ensures s[m..][n..] == s[m + n..]
  {
  }

  lemma OffsetZero(ps: seq<Piece>)
    ensures Offset(ps, 0) == 0
  {
  }

  lemma FoundFits(s: string)
    requires MatchAt(s).Some?
    ensures Fits(PanelAt(s), s)
  {
  }

  lemma TextFits(s: string)
    requires s != "" && MatchAt(s).None?
    ensures Fits(Text(s[0]), s)
  {
  }

  /** The scan is leftmost and complete: at the position of every piece the pattern
      was tried, and the piece is what it makes of the text there. */
  lemma {:induction false} ScanIsLeftmost(s: string, i: nat)
    requires i < |Scan(s)|
    ensures Offset(Scan(s), i) <= |s| && Fits(Scan(s)[i], s[Offset(Scan(s), i)..])
    decreases |s|
  {
    hide OPEN, MID, LANG_END, TERM, MatchAt, PrintPiece, Offset, Fits, Refresh;
    var p, rest;
    if MatchAt(s).Some? {
      RefreshMatch(s, map[]);
      MatchSplits(s);
      p, rest := PanelAt(s), Rest(s);
      assert Fits(p, s) by { FoundFits(s); }
    } else {
      RefreshText(s, map[]);
      PrintText(s[0]);
      p, rest := Text(s[0]), s[1..];
      assert Fits(p, s) by { TextFits(s); }
    }
    hide Scan;
    assert s[|PrintPiece(p)|..] == rest;
    assert Scan(s) == [p] + Scan(rest);
    if i == 0 {
      assert Offset(Scan(s), 0) == 0 by { OffsetZero(Scan(s)); }
      assert s[0..] == s;
    } else {
      ScanIsLeftmost(rest, i - 1);
      OffsetCons(p, Scan(rest), i - 1);
      DropTwice(s, |PrintPiece(p)|, Offset(Scan(rest), i - 1));
    }
  }

  // ----- rewriting bodies does not move any match

  /** From position `from` on, no `<` of `literal` could begin an opening. */
  predicate CannotOpen(literal: string, from: nat) {
    forall k | from <= k < |literal| && literal[k] == '<' :: k + 1 < |literal| && literal[k + 1] != 'd'
  }

  lemma OpenQuote()
    ensures Run(OPEN, '"') == 15
  {
    hide OPEN_SUMMARY;
    assert '"' !in "<" + OPEN_DETAILS;
    RunExact("<" + OPEN_DETAILS, OPEN_CLASS + "<" + OPEN_SUMMARY, '"');
    assert OPEN == ("<" + OPEN_DETAILS) + (OPEN_CLASS + "<" + OPEN_SUMMARY);
  }

  lemma OpenShape()
    ensures CannotOpen(OPEN, 1) && |OPEN| > 16 && OPEN[0] == '<' && OPEN[1] == 'd'
    ensures Run(OPEN, '"') == 15 && OPEN[16] == 's'
  {
    assert '<' !in OPEN_DETAILS && '<' !in OPEN_CLASS && '<' !in OPEN_SUMMARY;
    OpenQuote();
  }

  lemma MidShape()
    ensures CannotOpen(MID, 0) && CannotOpen(LANG_END, 0)
  {
    hide OPEN;
    assert '<' !in "/summary>" && '<' !in "pre>" && '<' !in "code class=\"language-";
    assert '<' !in LANG_END;
  }

  lemma LiteralShapes()
    ensures CannotOpen(OPEN, 1) && CannotOpen(MID, 0) && CannotOpen(LANG_END, 0)
    ensures |OPEN| > 16 && OPEN[0] == '<' && OPEN[1] == 'd'
    ensures Run(OPEN, '"') == 15 && OPEN[16] == 's'
  {
    OpenShape();
    MidShape();
  }

  /** A literal that fits nowhere across an opening sees only what precedes it. */
  lemma LiteralLocal(u: string, w: string, literal: string)
    requires CannotOpen(literal, |u|)
    ensures StartsWith(u + OPEN + w, literal) <==> StartsWith(u, literal)
  {
    LiteralShapes();
    var s := u + OPEN + w;
    if |literal| <= |u| {
      assert s[..|literal|] == u[..|literal|];
    } else {
      assert s[|u|] == OPEN[0] && s[|u| + 1] == OPEN[1];
    }
  }

  lemma RunLocal(u: string, w: string)
    ensures Run(u + OPEN + w, '<') == Run(u, '<')
    ensures Run(u, '"') < |u| ==> Run(u + OPEN + w, '"') == Run(u, '"')
    ensures Run(u, '"') == |u| ==> Run(u + OPEN + w, '"') == |u| + 15
  {
    LiteralShapes();
    var s := u + OPEN + w;
    assert forall i | 0 <= i < |u| :: s[i] == u[i];
    assert forall i | 0 <= i < |OPEN| :: s[|u| + i] == OPEN[i];
  }

  /** The language run can reach into a later opening, but only as far as its first
      quote, which is not followed by `>`. */
  lemma LangLocal(u: string, w: string)
    ensures ParseLang(u + OPEN + w) == ParseLang(u)
  {
    LiteralShapes();
    hide OPEN;
    RunLocal(u, w);
    var s, l := u + OPEN + w, Run(u, '"');
    if l < |u| {
      assert s[l..] == u[l..] + OPEN + w;
      LiteralLocal(u[l..], w, LANG_END);
    } else {
      assert s[l + 15..][1] == OPEN[16];
    }
  }

  lemma PathLocal(u: string, w: string)
    ensures ParsePath(u + OPEN + w) == ParsePath(u)
  {
    LiteralShapes();
    hide OPEN, MID, LANG_END, ParseLang;
    RunLocal(u, w);
    var s, p := u + OPEN + w, Run(u, '<');
    assert s[p..] == u[p..] + OPEN + w;
    assert s[..p] == u[..p];
    LiteralLocal(u[p..], w, MID);
    if StartsWith(u[p..], MID) {
      var u2 := u[p..][|MID|..];
      assert s[p..][|MID|..] == u2 + OPEN + w;
      LangLocal(u2, w);
    }
  }

  lemma CannotOpenLater(literal: string, from: nat, later: nat)
    requires CannotOpen(literal, from) && from <= later
    ensures CannotOpen(literal, later)
  {
  }

  /** An opening that starts later in the text stops every earlier attempt: the
      header parsed from a position before it never depends on what follows it. */
  lemma HeadLocal(u: string, w: string)
    requires u != ""
    ensures ParseHead(u + OPEN + w) == ParseHead(u)
  {
    LiteralShapes();
    hide OPEN, MID, LANG_END, ParsePath, CannotOpen;
    assert CannotOpen(OPEN, |u|) by { CannotOpenLater(OPEN, 1, |u|); }
    LiteralLocal(u, w, OPEN);
    if StartsWith(u, OPEN) {
      var u1 := u[|OPEN|..];
      assert (u + OPEN + w)[|OPEN|..] == u1 + OPEN + w;
      PathLocal(u1, w);
    }
  }

  /** A parsed header does not depend on what follows it. */
  lemma HeadPrefix(s: string, tail: string)
    requires ParseHead(s).Some?
    ensures ParseHead(s[..ParseHead(s).value.len] + tail) == ParseHead(s)
  {
    hide OPEN, MID, LANG_END, TERM, ParseHead;
    var lang := ParseHeadSound(s);
    var h := ParseHead(s).value;
    ParseHeadComplete(h.path, lang, tail);
    assert s[..h.len] + tail == OPEN + (h.path + (MID + (lang + (LANG_END + tail))));
  }

  lemma {:induction false} FindTermInSuffix(a: string, b: string)
    requires FindTerm(b).Some?
    ensures FindTerm(a + b).Some?
  {
    hide OPEN, MID, LANG_END, TERM;
    if a == "" {
      assert a + b == b;
    } else {
      FindTermInSuffix(a[1..], b);
      assert (a + b)[1..] == a[1..] + b;
    }
  }

  /** A body without `<` ends at the terminator printed after it. */
  lemma CleanBodyEnds(code: string, rest: string)
    requires '<' !in code
    ensures FindTerm(code + (TERM + rest)) == Some(|code|)
  {
    forall k | 0 <= k < |code|
      ensures !StartsWith((code + (TERM + rest))[k..], TERM)
    {
      var s := (code + (TERM + rest))[k..];
      assert s[0] == code[k] && TERM[0] == '<';
    }
    FindTermExact(code, rest);
  }

  lemma SameWindow(a: string, x: string, y: string, k: nat, n: nat)
    requires k + n <= |a|
    ensures (a + x)[k..][..n] == (a + y)[k..][..n]
  {
    assert (a + x)[k..][..n] == a[k..][..n];
    assert (a + y)[k..][..n] == a[k..][..n];
  }

  /** A body that ended at its terminator still does, whatever follows. */
  lemma SameBodyEnds(body: string, rest: string)
    requires FindTerm(body).Some?
    ensures var code := body[..FindTerm(body).value];
            FindTerm(code + (TERM + rest)) == Some(|code|)
  {
    hide OPEN, MID, LANG_END, TERM, FindTerm;
    var n := FindTerm(body).value;
    var code := body[..n];
    BodySplits(body);
    assert code + (TERM + rest) == (code + TERM) + rest;
    forall k | 0 <= k < n
      ensures !StartsWith((code + (TERM + rest))[k..], TERM)
    {
      FindTermFirst(body, k);
      SameWindow(code + TERM, rest, body[n + |TERM|..], k, |TERM|);
    }
    FindTermExact(code, rest);
  }

  lemma Concat4(a: string, b: string, c: string, d: string)
    ensures a + (b + c + d) == (a + b) + c + d
  {
  }

  lemma RefreshEmpty(tree: Tree)
    ensures Refresh("", tree) == ""
  {
  }

  lemma PanelOpensAt(t: string, tree: Tree) returns (w: string, w': string)
    requires MatchAt(t).Some?
    ensures t == OPEN + w && Refresh(t, tree) == OPEN + w' && FindTerm(w).Some?
  {
    hide OPEN, MID, LANG_END, TERM, ParseHead, FindTerm, Refresh, RewritePiece;
    var m := MatchAt(t).value;
    var p := RewritePiece(PanelAt(t), tree);
    RefreshMatch(t, tree);
    TakeDrop(t, |OPEN|);
    TakeDrop(m.open, |OPEN|);
    assert t[..|OPEN|] == m.open[..|OPEN|] == OPEN;
    w, w' := t[|OPEN|..], m.open[|OPEN|..] + (p.code + TERM + Refresh(Rest(t), tree));
    assert PrintPiece(p) + Refresh(Rest(t), tree) == OPEN + w';
    assert w[|m.open| - |OPEN|..] == t[|m.open|..];
    TakeDrop(w, |m.open| - |OPEN|);
    FindTermInSuffix(w[..|m.open| - |OPEN|], t[|m.open|..]);
  }

  /** Where the first panel of `t`, if any, opens before and after the rewrite. */
  lemma {:induction false} FirstPanel(t: string, tree: Tree) returns (found: bool, u: string, w: string, w': string)
    ensures !found ==> Refresh(t, tree) == t
    ensures found ==> t == u + OPEN + w && Refresh(t, tree) == u + OPEN + w' && FindTerm(w).Some?
    decreases |t|
  {
    hide OPEN, MID, LANG_END, TERM, MatchAt, Refresh, FindTerm;
    found, u, w, w' := false, "", "", "";
    if t == "" {
      assert Refresh(t, tree) == "" by { RefreshEmpty(tree); }
    } else if MatchAt(t).Some? {
      found := true;
      w, w' := PanelOpensAt(t, tree);
    } else {
      var v;
      found, v, w, w' := FirstPanel(t[1..], tree);
      RefreshText(t, tree);
      TakeDrop(t, 1);
      assert t[..1] == [t[0]];
      u := [t[0]] + v;
      Concat4([t[0]], v, OPEN, w);
      Concat4([t[0]], v, OPEN, w');
    }
  }

  /** A position that starts no match still starts none after the rewrite. */
  lemma NoMatchStays(s: string, tree: Tree)
    requires s != "" && MatchAt(s).None?
    ensures MatchAt([s[0]] + Refresh(s[1..], tree)).None?
  {
    hide OPEN, MID, LANG_END, TERM, ParseHead, FindTerm, Rewrite, Scan, Print;
    var found, u, w, w' := FirstPanel(s[1..], tree);
    var s' := [s[0]] + Refresh(s[1..], tree);
    if !found {
      assert s' == s;
    } else {
      var u1 := [s[0]] + u;
      Concat4([s[0]], u, OPEN, w);
      Concat4([s[0]], u, OPEN, w');
      TakeDrop(s, 1);
      assert s[..1] == [s[0]];
      assert s == u1 + OPEN + w && s' == u1 + OPEN + w';
      HeadLocal(u1, w);
      HeadLocal(u1, w');
      if ParseHead(u1).Some? {
        var n := ParseHead(u1).value.len;
        assert s[n..] == (u1[n..] + OPEN) + w;
        FindTermInSuffix(u1[n..] + OPEN, w);
      }
    }
  }

  /** A match still starts where it did, with the same opening and path, and its
      body is exactly the rewritten one. */
  lemma MatchStays(s: string, tree: Tree, rest': string)
    requires MatchAt(s).Some?
    ensures var p := RewritePiece(PanelAt(s), tree);
            var s' := PrintPiece(p) + rest';
            MatchAt(s').Some? && PanelAt(s') == p && Rest(s') == rest'
  {
    hide OPEN, MID, LANG_END, TERM, ParseHead, FindTerm, Escape;
    var p := RewritePiece(PanelAt(s), tree);
    var tail := p.code + (TERM + rest');
    HeadPrefix(s, tail);
    if p.path in tree {
      EscapedHasNoMarkup(tree[p.path]);
    }
    if '<' !in p.code {
      CleanBodyEnds(p.code, rest');
    } else {
      SameBodyEnds(s[|p.open|..], rest');
    }
    assert PrintPiece(p) + rest' == p.open + tail;
    PrefixOf(p.open, tail);
    PrefixOf(p.code, TERM + rest');
    PrefixOf(TERM, rest');
  }

  /** Scanning a refreshed document gives the rewritten pieces: all text outside
      panel bodies, and the number, order, openings and paths of panels, survive. */
  lemma {:induction false} ScanAfterRefresh(s: string, tree: Tree)
    ensures Scan(Refresh(s, tree)) == Rewrite(Scan(s), tree)
    decreases |s|
  {
    hide OPEN, MID, LANG_END, TERM, MatchAt, Refresh, RewritePiece, PrintPiece;
    if s == "" {
      RefreshEmpty(tree);
    } else if MatchAt(s).Some? {
      ScanAfterRefresh(Rest(s), tree);
      RefreshMatch(s, tree);
      MatchStays(s, tree, Refresh(Rest(s), tree));
      assert Rewrite(Scan(s), tree) == [RewritePiece(PanelAt(s), tree)] + Rewrite(Scan(Rest(s)), tree);
    } else {
      ScanAfterRefresh(s[1..], tree);
      RefreshText(s, tree);
      NoMatchStays(s, tree);
      assert Rewrite(Scan(s), tree) == [RewritePiece(Text(s[0]), tree)] + Rewrite(Scan(s[1..]), tree);
    }
  }

  /** The problems a refresh cannot repair. */
  function MissingOnly(problems: seq<Problem>): seq<Problem> {
    if problems == [] then []
    else (if problems[0].Missing? then [problems[0]] else []) + MissingOnly(problems[1..])
  }

  lemma {:induction false} MissingOnlyConcat(a: seq<Problem>, b: seq<Problem>)
    ensures MissingOnly(a + b) == MissingOnly(a) + MissingOnly(b)
  {
    if a == [] {
      assert a + b == b;
    } else {
      var first := if a[0].Missing? then [a[0]] else [];
      assert (a + b)[1..] == a[1..] + b;
      MissingOnlyConcat(a[1..], b);
      assert MissingOnly(a + b) == first + (MissingOnly(a[1..]) + MissingOnly(b));
    }
  }

  lemma {:induction false} RewrittenIsFresh(ps: seq<Piece>, tree: Tree)
    ensures var qs := Rewrite(ps, tree);
            && Rewrite(qs, tree) == qs
            && Problems(qs, tree) == MissingOnly(Problems(ps, tree))
  {
    if ps == [] {
    } else {
      RewrittenIsFresh(ps[1..], tree);
      var q := RewritePiece(ps[0], tree);
      assert Rewrite(ps, tree)[1..] == Rewrite(ps[1..], tree);
      assert RewritePiece(q, tree) == q;
      MissingOnlyConcat(PieceProblems(ps[0], tree), Problems(ps[1..], tree));
    }
  }

  /** Refreshing is a fixpoint: a second pass changes nothing, reports no drift, and
      still reports exactly the missing sources the first one reported. */
  lemma RefreshIsFixpoint(doc: string, tree: Tree)
    ensures var once := Refresh(doc, tree);
            && Refresh(once, tree) == once
            && Problems(Scan(once), tree) == MissingOnly(Problems(Scan(doc), tree))
  {
    ScanAfterRefresh(doc, tree);
    RewrittenIsFresh(Scan(doc), tree);
  }

  lemma {:induction false} RewriteIdle(ps: seq<Piece>, tree: Tree)
    ensures (forall i | 0 <= i < |ps| :: !Stale(ps[i], tree)) ==> Rewrite(ps, tree) == ps
  {
    if ps == [] {
    } else {
      RewriteIdle(ps[1..], tree);
    }
  }

  /** The drift check is exact: in a document refreshed against one source tree, a
      later check reports the `i`-th piece as stale exactly when it is a panel
      whose source exists and has changed in between. */
  lemma DriftIsExact(doc: string, before: Tree, now: Tree, i: nat)
    requires i < |Scan(doc)| && Scan(doc)[i].Panel? && Scan(doc)[i].path in before
    ensures |Scan(Refresh(doc, before))| == |Scan(doc)|
    ensures var p := Scan(Refresh(doc, before))[i];
            && p.Panel? && p.path == Scan(doc)[i].path
            && (Stale(p, now) <==> p.path in now && now[p.path] != before[p.path])
  {
    ScanAfterRefresh(doc, before);
    var p := Scan(doc)[i];
    if p.path in now {
      EscapeInjective(before[p.path], now[p.path]);
    }
  }

  // ----- the report

  /** A panel to be reported: its source is missing, or its body is not the encoding. */
  predicate Bad(p: Piece, tree: Tree) {
    p.Panel? && (p.path in tree ==> p.code != Escape(tree[p.path]))
  }

  function Verdict(p: Piece, tree: Tree): Problem
    requires p.Panel?
  {
    if p.path in tree then Drift(p.path) else Missing(p.path)
  }

  predicate Increasing(ns: seq<nat>) {
    forall i, j | 0 <= i < j < |ns| :: ns[i] < ns[j]
  }

  /** `bad` names exactly the panels to be reported. */
  ghost predicate Lists(bad: seq<nat>, ps: seq<Piece>, tree: Tree) {
    forall i: nat :: i in bad <==> i < |ps| && Bad(ps[i], tree)
  }

  /** There is one problem for each of them, the right one. */
  predicate Judges(problems: seq<Problem>, bad: seq<nat>, ps: seq<Piece>, tree: Tree) {
    |problems| == |bad| &&
    forall j | 0 <= j < |bad| :: bad[j] < |ps| && ps[bad[j]].Panel? && problems[j] == Verdict(ps[bad[j]], tree)
  }

  /** What is to be reported about a document's pieces, said without computing it:
      one problem for each panel to be reported, in the order of the document. */
  ghost predicate Reports(problems: seq<Problem>, ps: seq<Piece>, tree: Tree, bad: seq<nat>) {
    Increasing(bad) && Lists(bad, ps, tree) && Judges(problems, bad, ps, tree)
  }

  function Shift(ns: seq<nat>): (r: seq<nat>)
    ensures |r| == |ns| && forall i | 0 <= i < |ns| :: r[i] == ns[i] + 1
    ensures forall n :: n in r <==> n > 0 && n - 1 in ns
  {
    if ns == [] then [] else [ns[0] + 1] + Shift(ns[1..])
  }

  lemma OneReport(p: Piece, tree: Tree)
    ensures PieceProblems(p, tree) == if Bad(p, tree) then [Verdict(p, tree)] else []
  {
  }

  lemma ConsLists(p: Piece, ps: seq<Piece>, tree: Tree, bad: seq<nat>)
    requires Lists(bad, ps, tree)
    ensures Lists((if Bad(p, tree) then [0] else []) + Shift(bad), [p] + ps, tree)
  {
    hide Bad;
    var front: seq<nat> := if Bad(p, tree) then [0] else [];
    var all := front + Shift(bad);
    forall i: nat
      ensures i in all <==> i < |[p] + ps| && Bad(([p] + ps)[i], tree)
    {
      assert i in all <==> i in front || i in Shift(bad);
      if i > 0 {
        assert i <= |ps| ==> ([p] + ps)[i] == ps[i - 1];
        assert i - 1 in bad <==> i - 1 < |ps| && Bad(ps[i - 1], tree);
      }
    }
  }

  lemma ConsJudges(p: Piece, ps: seq<Piece>, tree: Tree, problems: seq<Problem>, bad: seq<nat>)
    requires Judges(problems, bad, ps, tree)
    ensures Judges((if Bad(p, tree) then [Verdict(p, tree)] else []) + problems,
                   (if Bad(p, tree) then [0] else []) + Shift(bad), [p] + ps, tree)
  {
    assert Bad(p, tree) ==> p.Panel?;
    hide Verdict, Bad;
    var front: seq<nat> := if Bad(p, tree) then [0] else [];
    var head := if Bad(p, tree) then [Verdict(p, tree)] else [];
    forall j | 0 <= j < |front + Shift(bad)|
      ensures var n := (front + Shift(bad))[j];
              n < |[p] + ps| && ([p] + ps)[n].Panel? && (head + problems)[j] == Verdict(([p] + ps)[n], tree)
    {
      if j >= |front| {
        var i := j - |front|;
        assert (front + Shift(bad))[j] == bad[i] + 1;
        assert ([p] + ps)[bad[i] + 1] == ps[bad[i]];
      }
    }
  }

  lemma ConsIncreasing(front: bool, bad: seq<nat>)
    requires Increasing(bad)
    ensures Increasing((if front then [0] else []) + Shift(bad))
  {
  }

  lemma ConsReport(p: Piece, ps: seq<Piece>, tree: Tree, problems: seq<Problem>, bad: seq<nat>)
    requires Reports(problems, ps, tree, bad)
    ensures Reports((if Bad(p, tree) then [Verdict(p, tree)] else []) + problems, [p] + ps, tree,
                    (if Bad(p, tree) then [0] else []) + Shift(bad))
  {
    ConsIncreasing(Bad(p, tree), bad);
    ConsLists(p, ps, tree, bad);
    ConsJudges(p, ps, tree, problems, bad);
    hide Increasing, Lists, Judges, Bad, Verdict, Shift;
  }

  lemma {:induction false} ReportIsExact(ps: seq<Piece>, tree: Tree) returns (bad: seq<nat>)
    ensures Reports(Problems(ps, tree), ps, tree, bad)
  {
    if ps == [] {
      bad := [];
    } else {
      var rest := ReportIsExact(ps[1..], tree);
      OneReport(ps[0], tree);
      ConsReport(ps[0], ps[1..], tree, Problems(ps[1..], tree), rest);
      bad := (if Bad(ps[0], tree) then [0] else []) + Shift(rest);
      assert ps == [ps[0]] + ps[1..];
    }
  }

  /** A panel is reported as drifted, or as missing, exactly when it is. */
  lemma ReportedExactly(ps: seq<Piece>, tree: Tree, path: string)
    ensures Drift(path) in Problems(ps, tree) <==>
              exists i | 0 <= i < |ps| :: ps[i].Panel? && ps[i].path == path &&
                path in tree && ps[i].code != Escape(tree[path])
    ensures Missing(path) in Problems(ps, tree) <==>
              exists i | 0 <= i < |ps| :: ps[i].Panel? && ps[i].path == path && path !in tree
    ensures Problems(ps, tree) == [] <==>
              forall i | 0 <= i < |ps| :: ps[i].Panel? ==> ps[i].path in tree && ps[i].code == Escape(tree[ps[i].path])
  {
    var bad := ReportIsExact(ps, tree);
    var problems := Problems(ps, tree);
    hide Escape, Problems;
    forall i: nat | i in bad
      ensures Verdict(ps[i], tree) in problems
    {
      var j :| 0 <= j < |bad| && bad[j] == i;
      assert problems[j] in problems;
    }
    forall problem | problem in problems
      ensures exists i: nat | i in bad :: problem == Verdict(ps[i], tree)
    {
      var j :| 0 <= j < |problems| && problems[j] == problem;
      assert bad[j] in bad;
    }
    assert bad != [] ==> bad[0] in bad;
    assert forall i | 0 <= i < |ps| :: i in bad <==> Bad(ps[i], tree);
  }

  // ----- the pass over one document

  lemma ProblemsCons(p: Piece, ps: seq<Piece>, tree: Tree)
    ensures Problems([p] + ps, tree) == PieceProblems(p, tree) + Problems(ps, tree)
  {
    assert ([p] + ps)[1..] == ps;
  }

  lemma TextStep(doc: string, pos: nat, tree: Tree)
    requires pos < |doc| && MatchAt(doc[pos..]).None?
    ensures Problems(Scan(doc[pos..]), tree) == Problems(Scan(doc[pos + 1..]), tree)
    ensures Refresh(doc[pos..], tree) == [doc[pos]] + Refresh(doc[pos + 1..], tree)
    ensures doc[..pos + 1] == doc[..pos] + [doc[pos]]
  {
    hide OPEN, MID, LANG_END, TERM, MatchAt, Refresh, Scan, Problems;
    var s := doc[pos..];
    RefreshText(s, tree);
    assert s[1..] == doc[pos + 1..];
    ProblemsCons(Text(s[0]), Scan(s[1..]), tree);
  }

  lemma PanelStep(doc: string, pos: nat, tree: Tree)
    requires pos < |doc| && MatchAt(doc[pos..]).Some?
    ensures var panel := PanelAt(doc[pos..]);
            var next := pos + |panel.open| + |panel.code| + |TERM|;
            && pos < next <= |doc|
            && Problems(Scan(doc[pos..]), tree) == PieceProblems(panel, tree) + Problems(Scan(doc[next..]), tree)
            && Refresh(doc[pos..], tree) == PrintPiece(RewritePiece(panel, tree)) + Refresh(doc[next..], tree)
            && doc[..next] == doc[..pos] + PrintPiece(panel)
            && (!Stale(panel, tree) ==> RewritePiece(panel, tree) == panel)
  {
    hide OPEN, MID, LANG_END, TERM, MatchAt, Refresh, Scan, Problems, PieceProblems, Print;
    var s := doc[pos..];
    var panel := PanelAt(s);
    var next := pos + |panel.open| + |panel.code| + |TERM|;
    RefreshMatch(s, tree);
    MatchSplits(s);
    assert Rest(s) == doc[next..];
    assert doc[pos..next] == PrintPiece(panel);
    ProblemsCons(panel, Scan(Rest(s)), tree);
  }

  lemma EndStep(doc: string, tree: Tree)
    ensures Problems(Scan(doc[|doc|..]), tree) == [] && Refresh(doc[|doc|..], tree) == ""
  {
    assert doc[|doc|..] == "";
  }

  /** The replacement callback of one match. */
  method Replace(panel: Piece, tree: Tree, write: bool) returns (text: string, problems: seq<Problem>, changed: bool)
    requires panel.Panel?
    ensures problems == PieceProblems(panel, tree)
    ensures problems == if panel.path !in tree then [Missing(panel.path)]
                        else if panel.code != Escape(tree[panel.path]) then [Drift(panel.path)]
                        else []
    ensures text == PrintPiece(if write then RewritePiece(panel, tree) else panel)
    ensures changed <==> write && Stale(panel, tree)
  {
    problems, changed := [], false;
    if panel.path !in tree {
      return PrintPiece(panel), [Missing(panel.path)], false;
    }
    var expected := Escape(tree[panel.path]);
    if panel.code != expected {
      problems := [Drift(panel.path)];
      if write {
        return panel.open + expected + TERM, problems, true;
      }
    }
    text := PrintPiece(panel);
  }

  lemma ReportOf(doc: string, tree: Tree)
    ensures exists bad :: Reports(Problems(Scan(doc), tree), Scan(doc), tree, bad)
    ensures Problems(Scan(doc), tree) == [] <==>
              forall p | p in Scan(doc) && p.Panel? :: p.path in tree && p.code == Escape(tree[p.path])
  {
    hide Scan, Problems, Escape, Reports;
    var bad := ReportIsExact(Scan(doc), tree);
    ReportedExactly(Scan(doc), tree, "");
  }

  /** `check_source_panels`: returns what the file holds afterwards. */
  method CheckSourcePanels(original: string, tree: Tree, write: bool) returns (file: string, errors: seq<Problem>)
    ensures errors == Problems(Scan(original), tree)
    ensures exists bad :: Reports(errors, Scan(original), tree, bad)
    ensures errors == [] <==>
              forall p | p in Scan(original) && p.Panel? :: p.path in tree && p.code == Escape(tree[p.path])
    ensures file == if write then Refresh(original, tree) else original
  {
    hide *;
    ReportOf(original, tree);
    var pos, updated, changed := 0, "", false;
    errors := [];
    assert original[0..] == original;
    while pos < |original|
      invariant pos <= |original|
      invariant errors + Problems(Scan(original[pos..]), tree) == Problems(Scan(original), tree)
      invariant write ==> updated + Refresh(original[pos..], tree) == Refresh(original, tree)
      invariant !changed ==> updated == original[..pos]
      invariant changed ==> write
      decreases |original| - pos
    {
      var m := MatchAt(original[pos..]);
      if m.None? {
        TextStep(original, pos, tree);
        updated := updated + [original[pos]];
        pos := pos + 1;
      } else {
        var panel := PanelAt(original[pos..]);
        PanelStep(original, pos, tree);
        var replacement, problems, stale := Replace(panel, tree, write);
        errors := errors + problems;
        changed := changed || stale;
        updated := updated + replacement;
        pos := pos + |panel.open| + |panel.code| + |TERM|;
      }
    }
    EndStep(original, tree);
    file := if write && changed then updated else original;
  }
}
