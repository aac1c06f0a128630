/** The next-page address out of a Link header, as section 5 of RFC 5988 writes it. */
module Links {
  import opened Config
  import opened Text

  predicate StartsWith(s: string, p: string) { |p| <= |s| && s[..|p|] == p }

  function Unquote(s: string): string {
    if s == "" then s else if s[0] == '"' then Unquote(s[1..]) else [s[0]] + Unquote(s[1..])
  }

  predicate IsNextParam(p: string) { Unquote(TrimSpace(p)) == "rel=next" }

  predicate Blank(s: string) { forall c :: c in s ==> IsSpace(c) }

  /** Blanks around a text that starts and ends with none are trimmed. */
  lemma {:induction false} TrimsBlanks(a: string, core: string, b: string)
    requires Blank(a) && Blank(b) && core != "" && !IsSpace(core[0]) && !IsSpace(core[|core| - 1])
    ensures TrimSpace(a + core + b) == core
    decreases |a| + |b|
  {
    hide IsSpace;
    var s := a + core + b;
    if a != "" {
      assert s[1..] == a[1..] + core + b && s[0] == a[0];
      TrimsBlanks(a[1..], core, b);
    } else if b != "" {
      var n := |b| - 1;
      assert s[..|s| - 1] == a + core + b[..n] && s[|s| - 1] == b[n] && s[0] == core[0];
      TrimsBlanks(a, core, b[..n]);
    } else {
      assert s == core;
    }
  }

  lemma {:induction false} UnquoteJoins(s: string, t: string)
    ensures Unquote(s + t) == Unquote(s) + Unquote(t)
  {
    if s == "" {
      assert s + t == t;
    } else {
      assert (s + t)[1..] == s[1..] + t;
      UnquoteJoins(s[1..], t);
    }
  }

  lemma {:induction false} UnquotedStays(s: string)
    requires '"' !in s
    ensures Unquote(s) == s
  {
    if s != "" { UnquotedStays(s[1..]); }
  }

  /** `rel=w`, quoted or not and with blanks around, asks for the next page exactly if `w` is next. */
  lemma NextParamExactly(a: string, w: string, b: string)
    requires Blank(a) && Blank(b) && '"' !in w && (w == "" || !IsSpace(w[|w| - 1]))
    ensures IsNextParam(a + ("rel=" + w) + b) <==> w == "next"
    ensures IsNextParam(a + ("rel=" + ("\"" + w + "\"")) + b) <==> w == "next"
  {
    hide TrimSpace, Unquote, IsSpace;
    RelIsBare();
    TrimsBlanks(a, "rel=" + w, b);
    TrimsBlanks(a, "rel=" + ("\"" + w + "\""), b);
    UnquoteJoins("rel=", w);
    UnquoteJoins("rel=", "\"" + w + "\"");
    UnquoteJoins("\"" + w, "\"");
    UnquoteJoins("\"", w);
    UnquotedStays("rel=");
    UnquotedStays(w);
    assert "" + w + "" == w;
    assert ("rel=" + w)[4..] == w && "rel=next"[4..] == "next" && "rel=next" == "rel=" + "next";
  }

  lemma RelIsBare()
    ensures !IsSpace("rel="[0]) && !IsSpace("rel="[3]) && !IsSpace('"') && Unquote("\"") == ""
  {
    assert "\""[1..] == "";
  }

  function TrimLeftSlash(s: string): string {
    if s != "" && s[0] == '/' then TrimLeftSlash(s[1..]) else s
  }

  function TrimRightSlash(s: string): string {
    if s != "" && s[|s| - 1] == '/' then TrimRightSlash(s[..|s| - 1]) else s
  }

  /** An absolute target stands; anything else is taken relative to the registry's address. */
  function Resolve(target: string, baseURL: string): string {
    if StartsWith(target, "http://") || StartsWith(target, "https://") then target
    else TrimRightSlash(baseURL) + "/" + TrimLeftSlash(target)
  }

  function Slashes(n: nat): string { if n == 0 then "" else "/" + Slashes(n - 1) }

  lemma {:induction false} LeadingSlashesGo(n: nat, path: string)
    requires path == "" || path[0] != '/'
    ensures TrimLeftSlash(Slashes(n) + path) == path
  {
    if n == 0 {
      assert Slashes(n) + path == path;
    } else {
      assert (Slashes(n) + path)[1..] == Slashes(n - 1) + path;
      LeadingSlashesGo(n - 1, path);
    }
  }

  lemma {:induction false} TrailingSlashesGo(base: string, n: nat)
    requires base == "" || base[|base| - 1] != '/'
    ensures TrimRightSlash(base + Slashes(n)) == base
  {
    if n == 0 {
      assert base + Slashes(n) == base;
    } else {
      SlashAtEnd(n - 1);
      assert (base + Slashes(n))[..|base + Slashes(n)| - 1] == base + Slashes(n - 1);
      TrailingSlashesGo(base, n - 1);
    }
  }

  lemma {:induction false} SlashAtEnd(n: nat)
    ensures Slashes(n + 1) == Slashes(n) + "/"
  {
    if n > 0 { SlashAtEnd(n - 1); }
  }

  /** A registry-relative target is joined to the address by exactly one slash, however many either
      side brings. */
  lemma RelativeTargetJoinsOnce(base: string, m: nat, n: nat, path: string)
    requires base == "" || base[|base| - 1] != '/'
    requires path == "" || path[0] != '/'
    requires n > 0 || !(StartsWith(path, "http://") || StartsWith(path, "https://"))
    ensures Resolve(Slashes(n) + path, base + Slashes(m)) == base + "/" + path
  {
    LeadingSlashesGo(n, path);
    TrailingSlashesGo(base, m);
    if n == 0 {
      assert Slashes(n) + path == path;
    } else {
      assert (Slashes(n) + path)[0] == '/' && "http://"[0] == 'h' && "https://"[0] == 'h';
    }
  }

  /** An absolute target is the next page's address as it stands. */
  lemma AbsoluteTargetStands(rest: string, base: string)
    ensures Resolve("http://" + rest, base) == "http://" + rest && Resolve("https://" + rest, base) == "https://" + rest
  {
    assert ("http://" + rest)[..7] == "http://" && ("https://" + rest)[..8] == "https://";
  }

  /** The target of one comma-separated piece of the header, if the piece is a next link. */
  function NextTarget(piece: string): Option<string> {
    var segs := Split(piece, ';');
    var url := TrimSpace(segs[0]);
    if |segs| >= 2 && url != "" && url[0] == '<' && url[|url| - 1] == '>'
       && exists i :: 1 <= i < |segs| && IsNextParam(segs[i])
    then Some(url[1..|url| - 1]) else None
  }

  function FirstNext(pieces: seq<string>): Option<string> {
    if pieces == [] then None
    else if NextTarget(pieces[0]).Some? then NextTarget(pieces[0])
    else FirstNext(pieces[1..])
  }

  method NextLink(header: string, baseURL: string) returns (next: string)
    ensures var t := FirstNext(Split(header, ','));
            next == if t.Some? then Resolve(t.value, baseURL) else ""
  {
    var parts := Split(header, ',');
    for k := 0 to |parts|
      invariant FirstNext(parts) == FirstNext(parts[k..])
    {
      assert parts[k..][1..] == parts[k + 1..];
      var segs := Split(parts[k], ';');
      if |segs| < 2 { continue; }
      var urlPart := TrimSpace(segs[0]);
      if urlPart == "" || urlPart[0] != '<' || urlPart[|urlPart| - 1] != '>' { continue; }
      var isNext := false;
      for i := 1 to |segs|
        invariant isNext <==> exists j :: 1 <= j < i && IsNextParam(segs[j])
      {
        if IsNextParam(segs[i]) { isNext := true; }
      }
      if !isNext { continue; }
      return Resolve(urlPart[1..|urlPart| - 1], baseURL);
    }
    return "";
  }

  // ----- what a registry writes

  /** One link-value: optional spaces, the target in angle brackets, parameters. */
  datatype Link = Link(lead: string, target: string, params: seq<string>)

  predicate IsNext(l: Link) { exists i :: 0 <= i < |l.params| && IsNextParam(l.params[i]) }

  /** No separator of the header occurs inside the link, as URIs are percent-encoded in practice. */
  ghost predicate Plain(l: Link) {
    && (forall i :: 0 <= i < |l.lead| ==> IsSpace(l.lead[i]) && l.lead[i] != ',' && l.lead[i] != ';')
    && ',' !in l.target && ';' !in l.target
    && forall i :: 0 <= i < |l.params| ==> ',' !in l.params[i] && ';' !in l.params[i]
  }

  function RenderLink(l: Link): string {
    Join([l.lead + ("<" + l.target + ">")] + l.params, ';')
  }

  function RenderAll(links: seq<Link>): (pieces: seq<string>)
    ensures |pieces| == |links| && forall i :: 0 <= i < |links| ==> pieces[i] == RenderLink(links[i])
  {
    if links == [] then [] else [RenderLink(links[0])] + RenderAll(links[1..])
  }

  function Header(links: seq<Link>): string requires links != [] {
    Join(RenderAll(links), ',')
  }

  lemma {:induction false} TrimLead(lead: string, s: string)
    requires forall i :: 0 <= i < |lead| ==> IsSpace(lead[i])
    requires s != "" && !IsSpace(s[0]) && !IsSpace(s[|s| - 1])
    ensures TrimSpace(lead + s) == s
  {
    if lead == "" {
      assert lead + s == s;
    } else {
      assert (lead + s)[1..] == lead[1..] + s;
      TrimLead(lead[1..], s);
    }
  }

  lemma {:induction false} JoinHasNo(parts: seq<string>, sep: char, c: char)
    requires |parts| >= 1 && c != sep && forall i :: 0 <= i < |parts| ==> c !in parts[i]
    ensures c !in Join(parts, sep)
  {
    if |parts| > 1 { JoinHasNo(parts[1..], sep, c); }
  }

  lemma PlainLinkReads(l: Link)
    requires Plain(l)
    ensures ',' !in RenderLink(l)
    ensures NextTarget(RenderLink(l)) == if IsNext(l) then Some(l.target) else None
  {
    var url := "<" + l.target + ">";
    var segs := [l.lead + url] + l.params;
    assert ',' !in l.lead && ';' !in l.lead;
    forall i | 0 <= i < |segs| ensures ',' !in segs[i] && ';' !in segs[i] {
      if i > 0 { assert segs[i] == l.params[i - 1]; }
    }
    JoinHasNo(segs, ';', ',');
    SplitJoin(segs, ';');
    TrimLead(l.lead, url);
    assert url[1..|url| - 1] == l.target;
    if IsNext(l) {
      var i :| 0 <= i < |l.params| && IsNextParam(l.params[i]);
      assert IsNextParam(segs[i + 1]);
    }
  }

  /** The first link of a list that is a next link. */
  function FirstNextLink(links: seq<Link>): Option<string> {
    if links == [] then None else if IsNext(links[0]) then Some(links[0].target) else FirstNextLink(links[1..])
  }

  lemma {:induction false} PiecesRead(links: seq<Link>)
    requires forall i :: 0 <= i < |links| ==> Plain(links[i])
    ensures FirstNext(RenderAll(links)) == FirstNextLink(links)
    ensures forall i :: 0 <= i < |links| ==> ',' !in RenderAll(links)[i]
  {
    if links != [] {
      PlainLinkReads(links[0]);
      PiecesRead(links[1..]);
      assert RenderAll(links)[1..] == RenderAll(links[1..]);
    }
  }

  /** Reading back any header of plain links finds its first next link and nothing else. */
  lemma HeaderReadsBack(links: seq<Link>)
    requires links != [] && forall i :: 0 <= i < |links| ==> Plain(links[i])
    ensures FirstNext(Split(Header(links), ',')) == FirstNextLink(links)
  {
    PiecesRead(links);
    SplitJoin(RenderAll(links), ',');
  }

  // ----- targets that contain a separator of the header

  /** Neither separator of the header occurs in the target. */
  predicate Clean(target: string) { ',' !in target && ';' !in target }

  /** A target found in a piece without commas has no separator inside. */
  lemma FoundIsClean(piece: string)
    requires ',' !in piece
    ensures NextTarget(piece).Some? ==> Clean(NextTarget(piece).value)
  {
    var segs := Split(piece, ';');
    JoinSplit(piece, ';');
    var a, b := TrimSpaceTrims(segs[0]);
    forall c | c in segs[0] ensures c in piece { FirstPieceWithin(piece, ';', c); }
  }

  lemma FirstPieceWithin(s: string, sep: char, c: char)
    requires c in Split(s, sep)[0]
    ensures c in s
  {
  }

  lemma {:induction false} FirstFoundIsClean(pieces: seq<string>)
    requires forall i :: 0 <= i < |pieces| ==> ',' !in pieces[i]
    ensures FirstNext(pieces).Some? ==> Clean(FirstNext(pieces).value)
  {
    if pieces != [] {
      FoundIsClean(pieces[0]);
      FirstFoundIsClean(pieces[1..]);
    }
  }

  /** Plain but for what its target may contain. */
  ghost predicate PlainButTarget(l: Link) {
    Plain(l.(target := ""))
  }

  lemma {:induction false} FirstNextIs(links: seq<Link>, k: nat)
    requires k < |links| && IsNext(links[k]) && forall i :: 0 <= i < k ==> !IsNext(links[i])
    ensures FirstNextLink(links) == Some(links[k].target)
  {
    if k > 0 { FirstNextIs(links[1..], k - 1); }
  }

  /** A next link is found exactly if its target, whatever it is, contains neither a comma nor a
      semicolon, both of which a URI may contain. */
  lemma TargetFoundExactly(links: seq<Link>, k: nat)
    requires k < |links| && IsNext(links[k]) && PlainButTarget(links[k])
    requires forall i :: 0 <= i < k ==> !IsNext(links[i])
    requires forall i :: 0 <= i < |links| && i != k ==> Plain(links[i])
    ensures FirstNext(Split(Header(links), ',')) == Some(links[k].target) <==> Clean(links[k].target)
  {
    if Clean(links[k].target) {
      HeaderReadsBack(links);
      FirstNextIs(links, k);
    }
    JoinSplit(Header(links), ',');
    FirstFoundIsClean(Split(Header(links), ','));
  }

  // ----- and what happens then

  /** What a piece is judged by: the text before its first semicolon. */
  lemma HeadDecides(piece: string)
    ensures NextTarget(piece).Some? ==> var head := piece[..IndexOf(piece, ';')]; '<' in head && '>' in head
  {
    var segs := Split(piece, ';');
    var a, b := TrimSpaceTrims(segs[0]);
  }

  /** The first separator comes no later than one in front. */
  lemma {:induction false} IndexWithin(s: string, rest: string, c: char)
    requires c in s
    ensures IndexOf(s + rest, c) == IndexOf(s, c) < |s| && (s + rest)[..IndexOf(s, c)] == s[..IndexOf(s, c)]
  {
    if s[0] != c {
      assert (s + rest)[1..] == s[1..] + rest;
      IndexWithin(s[1..], rest, c);
    }
  }

  /** Up to its first semicolon the rest of a broken link has no opening bracket. */
  lemma NoOpeningBracket(u: string, params: string)
    requires '<' !in u && (params == "" || params[0] == ';')
    ensures var t := u + (">" + params); '<' !in t[..IndexOf(t, ';')]
  {
    var t := u + (">" + params);
    if ';' in u {
      IndexWithin(u, ">" + params, ';');
    } else if params == "" {
      IndexSkips(t, ';', "");
    } else {
      IndexSkips(u + ">", ';', params[1..]);
      assert t == (u + ">") + ([';'] + params[1..]);
      assert t[..|u| + 1] == u + ">";
    }
  }

  /** The rest of a broken link: text without an opening bracket, its closing bracket, its parameters. */
  lemma {:induction false} BrokenRestIsNoLink(u: string, params: string)
    requires '<' !in u && ',' !in params && (params == "" || params[0] == ';')
    ensures FirstNext(Split(u + (">" + params), ',')).None?
    decreases |u|
  {
    hide NextTarget, Split, IndexOf;
    var t := u + (">" + params);
    NoOpeningBracket(u, params);
    HeadDecides(t);
    if ',' in u {
      var i := IndexOf(u, ',');
      IndexWithin(u, ">" + params, ',');
      HeadDecides(t[..i]);
      assert t[i + 1..] == u[i + 1..] + (">" + params);
      BrokenRestIsNoLink(u[i + 1..], params);
      FirstNextSplit(t);
    } else {
      SplitJoin([t], ',');
    }
  }

  lemma FirstNextSplit(t: string)
    requires ',' in t
    ensures var i := IndexOf(t, ',');
            FirstNext(Split(t, ',')) == if NextTarget(t[..i]).Some? then NextTarget(t[..i]) else FirstNext(Split(t[i + 1..], ','))
  {
    hide NextTarget, IndexOf;
    var i := IndexOf(t, ',');
    assert Split(t, ',') == [t[..i]] + Split(t[i + 1..], ',');
    assert Split(t, ',')[1..] == Split(t[i + 1..], ',');
  }

  function ParamText(params: seq<string>): string {
    if params == [] then "" else ";" + Join(params, ';')
  }

  lemma RenderedLink(l: Link)
    ensures Header([l]) == (l.lead + ("<" + l.target)) + (">" + ParamText(l.params))
  {
    assert RenderAll([l]) == [RenderLink(l)];
    var first := l.lead + ("<" + l.target + ">");
    assert ([first] + l.params)[1..] == l.params;
    assert RenderLink(l) == first + ParamText(l.params);
  }

  lemma CommaIsPastTheBracket(lead: string, target: string)
    requires ',' !in lead && '<' !in target && ',' in target
    ensures var open := lead + ("<" + target); var i := IndexOf(open, ','); i < |open| && '<' !in open[i + 1..]
  {
    var open := lead + ("<" + target);
    var k := |lead| + 1 + IndexOf(target, ',');
    IndexWithin(target, "", ',');
    assert open[k] == ',';
    var i := IndexOf(open, ',');
    assert forall j :: 0 <= j < |lead| ==> open[j] == lead[j];
    assert i > |lead|;
    assert open[i + 1..] == target[i - |lead|..];
  }

  lemma CommaEndsPaging(open: string, i: nat, params: string)
    requires i == IndexOf(open, ',') < |open| && '>' !in open && '<' !in open[i + 1..]
    requires ',' !in params && (params == "" || params[0] == ';')
    ensures FirstNext(Split(open + (">" + params), ',')).None?
  {
    hide NextTarget, Split, IndexOf, FirstNext;
    var rest := ">" + params;
    var h := open + rest;
    IndexWithin(open, rest, ',');
    NeedsClosingBracket(open[..i]);
    FirstNextSplit(h);
    DropWithin(open, rest, i + 1);
    BrokenRestIsNoLink(open[i + 1..], params);
  }

  lemma DropWithin(s: string, rest: string, n: nat)
    requires n <= |s|
    ensures (s + rest)[n..] == s[n..] + rest
  {
  }

  lemma NeedsClosingBracket(p: string)
    requires '>' !in p
    ensures NextTarget(p).None?
  {
    HeadDecides(p);
  }

  lemma SemicolonEndsPaging(open: string, params: string)
    requires ';' in open && ',' !in open && '>' !in open && ',' !in params
    ensures FirstNext(Split(open + (">" + params), ',')).None?
  {
    hide NextTarget, Split, IndexOf;
    var h := open + (">" + params);
    IndexWithin(open, ">" + params, ';');
    HeadDecides(h);
    SplitJoin([h], ',');
  }

  /** Paging stops at a next link whose target has a separator inside: of its pieces none is taken for a
      next link. Angle brackets never occur in a URI. */
  lemma SeparatorEndsPaging(l: Link)
    requires PlainButTarget(l) && '<' !in l.target && '>' !in l.target && !Clean(l.target)
    ensures FirstNext(Split(Header([l]), ',')).None?
  {
    var open, params := l.lead + ("<" + l.target), ParamText(l.params);
    RenderedLink(l);
    if l.params != [] { JoinHasNo(l.params, ';', ','); }
    assert '>' !in open;
    if ',' in l.target {
      var i := IndexOf(open, ',');
      CommaIsPastTheBracket(l.lead, l.target);
      CommaEndsPaging(open, i, params);
    } else {
      SemicolonEndsPaging(open, params);
    }
  }

  // ----- any header at all

  lemma FirstIn(s: string, c: char)
    ensures c in s <==> IndexOf(s, c) < |s|
  {
    hide IndexOf;
    var i := IndexOf(s, c);
    assert s[..|s|] == s;
  }

  lemma SplitAtFirst(s: string, sep: char)
    ensures sep !in s ==> Split(s, sep) == [s]
    ensures sep in s ==> var i := IndexOf(s, sep); i < |s| && Split(s, sep) == [s[..i]] + Split(s[i + 1..], sep)
  {
    hide IndexOf;
    FirstIn(s, sep);
  }

  lemma CutAt(p: string, c: char, q: string)
    ensures var s := p + ([c] + q); s[..|p|] == p && s[|p| + 1..] == q && c in s
  {
    assert (p + ([c] + q))[|p|] == c;
  }

  lemma {:induction false} SplitConcat(a: string, b: string, sep: char)
    ensures Split(a + ([sep] + b), sep) == Split(a, sep) + Split(b, sep)
    decreases |a|
  {
    hide Split, IndexOf;
    var rest := [sep] + b;
    CutAt(a, sep, b);
    SplitAtFirst(a + rest, sep);
    SplitAtFirst(a, sep);
    if sep !in a {
      IndexSkips(a, sep, b);
    } else {
      IndexWithin(a, rest, sep);
      var i := IndexOf(a, sep);
      DropWithin(a, rest, i + 1);
      SplitConcat(a[i + 1..], b, sep);
    }
  }

  lemma OnePiece(t: string)
    requires ',' !in t
    ensures FirstNext(Split(t, ',')) == NextTarget(t)
  {
    SplitAtFirst(t, ',');
  }

  lemma {:induction false} FirstNextConcat(p: seq<string>, q: seq<string>)
    ensures FirstNext(p + q) == if FirstNext(p).Some? then FirstNext(p) else FirstNext(q)
  {
    if p == [] {
      assert p + q == q;
    } else {
      assert (p + q)[1..] == p[1..] + q;
      FirstNextConcat(p[1..], q);
    }
  }

  /** What is found in the text of one link, whatever it contains. */
  function FoundIn(l: Link): Option<string> { FirstNext(Split(RenderLink(l), ',')) }

  function FirstFound(links: seq<Link>): Option<string> {
    if links == [] then None else if FoundIn(links[0]).Some? then FoundIn(links[0]) else FirstFound(links[1..])
  }

  /** Links do not interfere: what is found in a header is what is found in the first of its links that
      has anything. */
  lemma {:induction false} HeaderFinds(links: seq<Link>)
    requires links != []
    ensures FirstNext(Split(Header(links), ',')) == FirstFound(links)
  {
    hide NextTarget;
    if |links| == 1 {
      assert RenderAll(links) == [RenderLink(links[0])];
    } else {
      HeaderFinds(links[1..]);
      assert RenderAll(links)[1..] == RenderAll(links[1..]);
      assert Header(links) == RenderLink(links[0]) + ([','] + Header(links[1..]));
      SplitConcat(RenderLink(links[0]), Header(links[1..]), ',');
      FirstNextConcat(Split(RenderLink(links[0]), ','), Split(Header(links[1..]), ','));
    }
  }

  /** The parameters up to their first comma. */
  function EarlyParams(l: Link): string requires l.params != [] {
    var t := Join(l.params, ';');
    t[..IndexOf(t, ',')]
  }

  predicate HasNextParam(text: string) {
    var p := Split(text, ';');
    exists i :: 0 <= i < |p| && IsNextParam(p[i])
  }

  /** The target has no separator inside, and some parameter before the first comma is rel=next. */
  predicate Readable(l: Link) {
    Clean(l.target) && l.params != [] && HasNextParam(EarlyParams(l))
  }

  /** Blanks, a target that is a URI as far as brackets go, and parameters without an opening bracket. */
  ghost predicate Bracketed(l: Link) {
    && (forall i :: 0 <= i < |l.lead| ==> IsSpace(l.lead[i]))
    && '<' !in l.target && '>' !in l.target
    && forall i :: 0 <= i < |l.params| ==> '<' !in l.params[i]
  }

  lemma {:induction false} NoBracketNoLink(t: string)
    requires '<' !in t
    ensures FirstNext(Split(t, ',')).None?
    decreases |t|
  {
    hide NextTarget;
    if ',' in t {
      var i := IndexOf(t, ',');
      NeedsOpeningBracket(t[..i]);
      FirstNextSplit(t);
      NoBracketNoLink(t[i + 1..]);
    } else {
      NeedsOpeningBracket(t);
      SplitJoin([t], ',');
    }
  }

  lemma NeedsOpeningBracket(p: string)
    requires '<' !in p
    ensures NextTarget(p).None?
  {
    HeadDecides(p);
  }

  /** A piece that is a bracketed target and parameters. */
  lemma PieceReads(lead: string, target: string, params: string)
    requires (forall i :: 0 <= i < |lead| ==> IsSpace(lead[i])) && Clean(target)
    ensures NextTarget((lead + ("<" + target + ">")) + ([';'] + params)) == if HasNextParam(params) then Some(target) else None
  {
    hide Split, IsSpace, TrimSpace, IsNextParam;
    var url := "<" + target + ">";
    var first := lead + url;
    LeadIsPlain(lead);
    SplitConcat(first, params, ';');
    SplitAtFirst(first, ';');
    TrimBracketed(lead, target);
    var segs, more := Split(first + ([';'] + params), ';'), Split(params, ';');
    assert segs == [first] + more;
    SameAfterFirst(segs, more, first);
  }

  lemma TrimBracketed(lead: string, target: string)
    requires forall i :: 0 <= i < |lead| ==> IsSpace(lead[i])
    ensures var url := "<" + target + ">"; TrimSpace(lead + url) == url && url[1..|url| - 1] == target
  {
    TrimLead(lead, "<" + target + ">");
  }

  lemma SameAfterFirst(segs: seq<string>, more: seq<string>, first: string)
    requires segs == [first] + more
    ensures (exists i :: 1 <= i < |segs| && IsNextParam(segs[i])) <==> exists i :: 0 <= i < |more| && IsNextParam(more[i])
  {
    hide IsNextParam;
    if i :| 0 <= i < |more| && IsNextParam(more[i]) { assert segs[i + 1] == more[i]; }
    if i :| 1 <= i < |segs| && IsNextParam(segs[i]) { assert segs[i] == more[i - 1]; }
  }

  lemma NoParamsNoLink(first: string)
    requires ';' !in first && ',' !in first
    ensures FirstNext(Split(first, ',')).None?
  {
    SplitJoin([first], ',');
    SplitJoin([first], ';');
  }

  /** A clean link is found by what stands before the first comma of its parameters. */
  lemma CleanLinkReads(l: Link)
    requires Bracketed(l) && Clean(l.target) && l.params != []
    ensures FoundIn(l) == if HasNextParam(EarlyParams(l)) then Some(l.target) else None
  {
    hide NextTarget, HasNextParam, Split, IsSpace, FirstNext, Join, IndexOf;
    var first := l.lead + ("<" + l.target + ">");
    var t := Join(l.params, ';');
    var i := IndexOf(t, ',');
    var open := first + [';'];
    LinkText(l);
    LeadIsPlain(l.lead);
    assert ',' !in open;
    PieceReads(l.lead, l.target, t[..i]);
    JoinHasNo(l.params, ';', '<');
    if ',' in t {
      CommaAfter(open, t);
      FirstNextSplit(open + t);
      assert first + ([';'] + t[..i]) == open + t[..i];
      NoBracketNoLink(t[i + 1..]);
    } else {
      IndexSkips(t, ',', "");
      assert t[..i] == t;
      OnePiece(open + t);
      assert first + ([';'] + t) == open + t;
    }
  }

  lemma {:induction false} IndexAfter(open: string, t: string, c: char)
    requires c !in open
    ensures IndexOf(open + t, c) == |open| + IndexOf(t, c)
  {
    if open == "" {
      assert open + t == t;
    } else {
      assert (open + t)[1..] == open[1..] + t;
      IndexAfter(open[1..], t, c);
    }
  }

  lemma SlicesAfter(open: string, t: string, i: nat)
    requires i < |t|
    ensures (open + t)[..|open| + i] == open + t[..i] && (open + t)[|open| + i + 1..] == t[i + 1..]
  {
  }

  lemma CommaAfter(open: string, t: string)
    requires ',' !in open && ',' in t
    ensures var s, i := open + t, IndexOf(t, ',');
            i < |t| && ',' in s && IndexOf(s, ',') == |open| + i && s[..|open| + i] == open + t[..i] && s[|open| + i + 1..] == t[i + 1..]
  {
    hide IndexOf, Split;
    IndexAfter(open, t, ',');
    SplitAtFirst(t, ',');
    SlicesAfter(open, t, IndexOf(t, ','));
  }

  lemma LinkText(l: Link)
    requires l.params != []
    ensures RenderLink(l) == (l.lead + ("<" + l.target + ">") + [';']) + Join(l.params, ';')
  {
    var first := l.lead + ("<" + l.target + ">");
    assert ([first] + l.params)[1..] == l.params;
    assert first + ([';'] + Join(l.params, ';')) == (first + [';']) + Join(l.params, ';');
  }

  lemma LeadIsPlain(lead: string)
    requires forall i :: 0 <= i < |lead| ==> IsSpace(lead[i])
    ensures ',' !in lead && ';' !in lead && '<' !in lead && '>' !in lead
  {
  }

  /** A broken link: no closing bracket before the first separator, no opening one after it. */
  lemma BrokenLinkReads(l: Link)
    requires Bracketed(l) && !Clean(l.target)
    ensures FoundIn(l).None?
  {
    hide NextTarget, Split, IsSpace, FirstNext, IndexOf;
    var open, after := l.lead + ("<" + l.target), ">" + ParamText(l.params);
    RenderedLink(l);
    assert RenderAll([l]) == [RenderLink(l)];
    LeadIsPlain(l.lead);
    if l.params != [] { JoinHasNo(l.params, ';', '<'); }
    if ',' in l.target {
      CommaIsPastTheBracket(l.lead, l.target);
      CommaBreaks(open, after);
    } else {
      SemicolonBreaks(open, after);
    }
  }

  lemma CommaBreaks(open: string, after: string)
    requires '>' !in open && '<' !in after && ',' in open
    requires IndexOf(open, ',') < |open| && '<' !in open[IndexOf(open, ',') + 1..]
    ensures FirstNext(Split(open + after, ',')).None?
  {
    hide NextTarget, Split, IndexOf, FirstNext;
    var i := IndexOf(open, ',');
    IndexWithin(open, after, ',');
    NeedsClosingBracket(open[..i]);
    FirstNextSplit(open + after);
    DropWithin(open, after, i + 1);
    NoBracketNoLink(open[i + 1..] + after);
  }

  lemma SemicolonBreaks(open: string, after: string)
    requires '>' !in open && '<' !in after && ',' !in open && ';' in open
    ensures FirstNext(Split(open + after, ',')).None?
  {
    hide NextTarget, Split, IndexOf, FirstNext;
    if ',' in after {
      var i := IndexOf(after, ',');
      SplitAtFirst(after, ',');
      CommaAfter(open, after);
      SemicolonStops(open, after[..i]);
      FirstNextSplit(open + after);
      NoBracketNoLink(after[i + 1..]);
    } else {
      SemicolonStops(open, after);
      OnePiece(open + after);
    }
  }

  lemma SemicolonStops(open: string, rest: string)
    requires ';' in open && '>' !in open
    ensures NextTarget(open + rest).None?
  {
    hide NextTarget, IndexOf;
    IndexWithin(open, rest, ';');
    HeadDecides(open + rest);
  }

  /** What is found in a link, exactly: its target if that has neither comma nor semicolon and a rel=next
      parameter stands before the first comma of the parameters, and nothing otherwise. */
  lemma LinkReadsExactly(l: Link)
    requires Bracketed(l)
    ensures FoundIn(l) == if Readable(l) then Some(l.target) else None
  {
    if !Clean(l.target) {
      BrokenLinkReads(l);
    } else if l.params != [] {
      CleanLinkReads(l);
    } else {
      var first := l.lead + ("<" + l.target + ">");
      LeadIsPlain(l.lead);
      assert [first] + l.params == [first];
      NoParamsNoLink(first);
    }
  }

  /** The first readable link. */
  function FirstReadable(links: seq<Link>): Option<string> {
    if links == [] then None else if Readable(links[0]) then Some(links[0].target) else FirstReadable(links[1..])
  }

  lemma {:induction false} FirstReadableFound(links: seq<Link>)
    requires forall i :: 0 <= i < |links| ==> Bracketed(links[i])
    ensures FirstFound(links) == FirstReadable(links)
  {
    if links != [] {
      LinkReadsExactly(links[0]);
      FirstReadableFound(links[1..]);
    }
  }

  /** Paging goes on exactly to the target of the first readable link of the header, and stops exactly if
      there is none. */
  lemma HeaderReadsExactly(links: seq<Link>)
    requires links != [] && forall i :: 0 <= i < |links| ==> Bracketed(links[i])
    ensures FirstNext(Split(Header(links), ',')) == FirstReadable(links)
  {
    HeaderFinds(links);
    FirstReadableFound(links);
  }

  /** An input with a clean target that is missed: a comma inside an earlier parameter, as in a quoted
      title. */
  lemma CommaInParameterIsMissed(target: string, x: string, y: string, next: string)
    requires Clean(target) && '<' !in target && '>' !in target && '<' !in x && '<' !in y && '<' !in next
    requires ',' !in x && ';' !in x && !IsNextParam(x) && IsNextParam(next)
    ensures var l := Link("", target, [x + ("," + y), next]); IsNext(l) && FoundIn(l).None?
  {
    hide IsNextParam;
    var l := Link("", target, [x + ("," + y), next]);
    assert l.params[1] == next;
    assert l.params[1..] == [next];
    assert Join(l.params, ';') == x + ([','] + (y + ([';'] + Join([next], ';'))));
    IndexSkips(x, ',', y + ([';'] + Join([next], ';')));
    assert EarlyParams(l) == x;
    SplitJoin([x], ';');
    LinkReadsExactly(l);
  }
}
