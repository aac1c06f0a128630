/** The compose file as text, and the substitution that pins the image's tag: on each line the leftmost
    `image:`, blanks, the image's name, a colon, and then everything up to the next blank or quote. */
module Compose {
  import opened Config

  /** The character class [[:space:]] of section 9.3.5 of POSIX.1-2017. */
  predicate IsBlank(c: char) { c == ' ' || '\t' <= c <= '\r' }

  function SkipBlanks(s: string): string {
    if s != "" && IsBlank(s[0]) then SkipBlanks(s[1..]) else s
  }

  /** What the tag's place in the pattern matches: anything but blanks and quotes. */
  predicate IsTagText(c: char) { !IsBlank(c) && c != '"' && c != '\'' }

  predicate AllTagText(s: string) { forall i :: 0 <= i < |s| ==> IsTagText(s[i]) }

  /** How far such text reaches. */
  function TagText(s: string): (n: nat)
    ensures n <= |s| && AllTagText(s[..n]) && (n < |s| ==> !IsTagText(s[n]))
  {
    if s != "" && IsTagText(s[0]) then 1 + TagText(s[1..]) else 0
  }

  // ----- the image's name, which the pattern reads as a regular expression

  predicate IsNameChar(c: char) {
    'a' <= c <= 'z' || 'A' <= c <= 'Z' || '0' <= c <= '9' || c == '.' || c == '/' || c == '-' || c == '_' || c == ':'
  }

  /** A repository name: no character that is special in a regular expression but dots, not in front. */
  predicate IsImageName(s: string) {
    s != "" && s[0] != '.' && forall i :: 0 <= i < |s| ==> IsNameChar(s[i])
  }

  type ImageName = s: string | IsImageName(s) witness "ghcr.io/joessst-dev/wha"

  /** A dot in the pattern matches any character. */
  predicate MatchesName(image: ImageName, w: string) {
    |w| == |image| && forall i :: 0 <= i < |image| ==> image[i] == '.' || w[i] == image[i]
  }

  // ----- one line

  const KEY := "image:"

  /** A reference found: the text before it, the text kept, the text replaced and the rest. */
  datatype Ref = Ref(before: string, head: string, tag: string, post: string)
  {
    function Text(): string { before + (head + (tag + post)) }
  }

  predicate StartsWithKey(s: string) { |s| >= |KEY| && s[..|KEY|] == KEY }

  /** The text after the key starts with blanks, the name, a colon and at least one character of a tag. */
  predicate NameFollows(image: ImageName, s: string) {
    var r := SkipBlanks(s);
    |r| > |image| + 1 && MatchesName(image, r[..|image|]) && r[|image|] == ':' && IsTagText(r[|image| + 1])
  }

  /** A match at the very start. */
  function RefAt(image: ImageName, s: string): (r: Option<Ref>)
    ensures r.Some? <==> StartsWithKey(s) && NameFollows(image, s[|KEY|..])
    ensures r.Some? ==> r.value.before == "" && r.value.Text() == s && WellFormed(image, r.value)
  {
    if !StartsWithKey(s) || !NameFollows(image, s[|KEY|..]) then None
    else
      Skipped(s[|KEY|..]);
      var blanks := |s| - |KEY| - |SkipBlanks(s[|KEY|..])|;
      HeadIsHead(image, s, blanks);
      Some(SplitAfterHead(s, |KEY| + blanks + |image| + 1))
  }

  function SplitAfterHead(s: string, n: nat): (r: Ref)
    requires n < |s| && IsTagText(s[n])
    ensures r.before == "" && r.head == s[..n] && r.Text() == s
    ensures r.tag != "" && AllTagText(r.tag) && (r.post == "" || !IsTagText(r.post[0]))
  {
    var rest := s[n..];
    var k := TagText(rest);
    assert rest == rest[..k] + rest[k..];
    assert s == s[..n] + rest;
    assert "" + s == s;
    Ref("", s[..n], rest[..k], rest[k..])
  }

  lemma {:induction false} Skipped(s: string)
    ensures var r := SkipBlanks(s); |r| <= |s| && s[|s| - |r|..] == r && forall i :: 0 <= i < |s| - |r| ==> IsBlank(s[i])
    ensures var r := SkipBlanks(s); r == "" || !IsBlank(r[0])
  {
    hide IsBlank;
    if s != "" && IsBlank(s[0]) {
      var t := s[1..];
      Skipped(t);
      var k := |t| - |SkipBlanks(t)|;
      assert t[k..] == s[k + 1..];
      assert forall i :: 1 <= i < k + 1 ==> s[i] == t[i - 1];
    }
  }

  /** The kept part: the key, blanks, the name and a colon. */
  ghost predicate IsHead(image: ImageName, head: string) {
    exists b: nat :: HeadWith(image, head, b)
  }

  predicate HeadWith(image: ImageName, head: string, b: nat) {
    && |head| == |KEY| + b + |image| + 1 && head[..|KEY|] == KEY
    && (forall i :: |KEY| <= i < |KEY| + b ==> IsBlank(head[i]))
    && MatchesName(image, head[|KEY| + b..|head| - 1]) && head[|head| - 1] == ':'
  }

  ghost predicate WellFormed(image: ImageName, r: Ref) {
    && IsHead(image, r.head)
    && r.tag != "" && AllTagText(r.tag) && (r.post == "" || !IsTagText(r.post[0]))
  }

  lemma HeadIsHead(image: ImageName, s: string, b: nat)
    requires StartsWithKey(s) && NameFollows(image, s[|KEY|..]) && b == |s| - |KEY| - |SkipBlanks(s[|KEY|..])|
    ensures var n := |KEY| + b + |image| + 1; n < |s| && HeadWith(image, s[..n], b) && IsTagText(s[n])
  {
    hide IsBlank, IsTagText, MatchesName, SkipBlanks;
    var t := s[|KEY|..];
    Skipped(t);
    var r, m := SkipBlanks(t), |KEY| + b;
    var n := m + |image| + 1;
    assert r == s[m..];
    SliceOfSlice(s, m, n, |image|);
    assert s[..n][..|KEY|] == s[..|KEY|];
    assert forall i :: |KEY| <= i < m ==> s[..n][i] == t[i - |KEY|];
  }

  lemma SliceOfSlice(s: string, m: nat, n: nat, k: nat)
    requires m + k + 1 == n < |s|
    ensures s[m..][..k] == s[..n][m..n - 1] && s[m..][k] == s[..n][n - 1] && s[m..][k + 1] == s[n]
  {
  }

  /** The leftmost match. */
  function FindRef(image: ImageName, s: string): (r: Option<Ref>)
    ensures r.Some? ==> r.value.Text() == s && WellFormed(image, r.value)
  {
    if s == "" then None
    else
      var here := RefAt(image, s);
      if here.Some? then here
      else
        var later := FindRef(image, s[1..]);
        if later.None? then None
        else
          var found := later.value.(before := [s[0]] + later.value.before);
          assert found.Text() == [s[0]] + later.value.Text();
          Some(found)
  }

  /** The line with the tag of its leftmost reference replaced. */
  function PinLine(image: ImageName, s: string, v: string): string {
    var r := FindRef(image, s);
    if r.None? then s else r.value.(tag := v).Text()
  }

  // ----- the search finds exactly the leftmost text of the pattern's form

  lemma {:induction false} SkipsAllBlanks(a: string, b: string)
    requires (forall i :: 0 <= i < |a| ==> IsBlank(a[i])) && (b == "" || !IsBlank(b[0]))
    ensures SkipBlanks(a + b) == b
  {
    if a == "" {
      assert a + b == b;
    } else {
      assert (a + b)[1..] == a[1..] + b;
      SkipsAllBlanks(a[1..], b);
    }
  }

  lemma {:induction false} TagTextIs(tag: string, post: string)
    requires AllTagText(tag) && (post == "" || !IsTagText(post[0]))
    ensures TagText(tag + post) == |tag|
  {
    if tag == "" {
      assert tag + post == post;
    } else {
      assert (tag + post)[1..] == tag[1..] + post;
      TagTextIs(tag[1..], post);
    }
  }

  lemma HeadAgain(image: ImageName, head: string, b: nat, rest: string)
    requires HeadWith(image, head, b) && rest != "" && IsTagText(rest[0])
    ensures var s := head + rest;
            StartsWithKey(s) && NameFollows(image, s[|KEY|..]) && |SkipBlanks(s[|KEY|..])| == |image| + 1 + |rest|
  {
    var s := head + rest;
    var blanks, name := head[|KEY|..|KEY| + b], head[|KEY| + b..];
    assert s[|KEY|..] == blanks + (name + rest);
    assert name[..|image|] == head[|KEY| + b..|head| - 1];
    assert name[0] == image[0] && IsNameChar(image[0]);
    SkipsAllBlanks(blanks, name + rest);
    assert (name + rest)[..|image|] == name[..|image|];
    assert s[..|KEY|] == head[..|KEY|];
  }

  lemma RefAtComplete(image: ImageName, r: Ref)
    requires WellFormed(image, r) && r.before == ""
    ensures RefAt(image, r.Text()) == Some(r)
  {
    var b: nat :| HeadWith(image, r.head, b);
    var rest := r.tag + r.post;
    assert r.Text() == r.head + rest;
    assert rest[0] == r.tag[0];
    HeadAgain(image, r.head, b, rest);
    TagTextIs(r.tag, r.post);
    var s := r.head + rest;
    assert s[..|r.head|] == r.head && s[|r.head|..] == rest;
    assert rest[..|r.tag|] == r.tag && rest[|r.tag|..] == r.post;
  }

  /** Whatever text has the pattern's form, the one found starts no later. */
  lemma {:induction false} FindsLeftmost(image: ImageName, r: Ref)
    requires WellFormed(image, r)
    ensures var found := FindRef(image, r.Text());
            found.Some? && |found.value.before| <= |r.before| && (|found.value.before| == |r.before| ==> found.value == r)
    decreases |r.before|
  {
    hide RefAt, IsHead, AllTagText;
    if r.before == "" {
      RefAtComplete(image, r);
    } else {
      var inner := r.(before := r.before[1..]);
      assert r.Text() == [r.before[0]] + inner.Text();
      assert r.Text()[1..] == inner.Text();
      FindsLeftmost(image, inner);
      if FindRef(image, inner.Text()) == Some(inner) { assert [r.before[0]] + inner.before == r.before; }
    }
  }

  // ----- what pinning does to a line

  /** Where a reference starts, the text has the first letter of the key. */
  lemma StartsWithI(image: ImageName, r: Ref)
    requires WellFormed(image, r)
    ensures |r.before| < |r.Text()| && r.Text()[|r.before|] == 'i'
  {
    assert r.head[..|KEY|][0] == 'i';
  }

  lemma FindsFirst(image: ImageName, r: Ref)
    requires WellFormed(image, r) && 'i' !in r.before
    ensures FindRef(image, r.Text()) == Some(r)
  {
    FindsLeftmost(image, r);
    var found := FindRef(image, r.Text()).value;
    StartsWithI(image, found);
    assert forall k :: 0 <= k < |r.before| ==> r.Text()[k] == r.before[k];
  }

  /** Past the first letter of its key a reference has no such letter before the image's name. */
  lemma NoSecondI(image: ImageName, e: Ref, b: nat, i: nat)
    requires HeadWith(image, e.head, b) && |e.before| < i < |e.before| + |KEY| + b
    ensures i < |e.Text()| && e.Text()[i] != 'i'
  {
    var k := i - |e.before|;
    assert e.Text()[i] == e.head[k];
    assert k < |KEY| ==> e.head[k] == e.head[..|KEY|][k];
  }

  /** A second reference that starts before the first one's end cannot reach that end: the key has to be
      matched twice. */
  lemma EarlierEndsEarlier(image: ImageName, r: Ref, e: Ref)
    requires WellFormed(image, r) && WellFormed(image, e) && r.Text() == e.Text() && |e.before| < |r.before|
    ensures |e.before| + |e.head| + 1 < |r.before| + |r.head|
  {
    var i := |r.before|;
    var b: nat :| HeadWith(image, e.head, b);
    var c: nat :| HeadWith(image, r.head, c);
    StartsWithI(image, r);
    if i < |e.before| + |KEY| + b { NoSecondI(image, e, b, i); }
  }

  /** Text of the pattern's form up to the first character of a tag makes a reference. */
  lemma PrefixMakesRef(image: ImageName, s: string, before: string, head: string)
    requires IsHead(image, head) && |before| + |head| < |s| && s[..|before| + |head|] == before + head
    requires IsTagText(s[|before| + |head|])
    ensures FindRef(image, s).Some? && |FindRef(image, s).value.before| <= |before|
  {
    var n := |before| + |head|;
    var rest := s[n..];
    var k := TagText(rest);
    var r := Ref(before, head, rest[..k], rest[k..]);
    TextOf(r, s, n);
    FindsLeftmost(image, r);
  }

  lemma TextOf(r: Ref, s: string, n: nat)
    requires n <= |s| && r.before + r.head == s[..n] && r.tag + r.post == s[n..]
    ensures r.Text() == s
  {
    assert r.Text() == (r.before + r.head) + (r.tag + r.post);
  }

  /** Pinning a line again replaces the same place: its reference stays where it was and has the new
      tag. */
  lemma PinKeepsPlace(image: ImageName, s: string, v: string)
    requires FindRef(image, s).Some? && v != "" && AllTagText(v)
    ensures FindRef(image, PinLine(image, s, v)) == Some(FindRef(image, s).value.(tag := v))
  {
    var r := FindRef(image, s).value;
    var r' := r.(tag := v);
    FindsLeftmost(image, r');
    var e := FindRef(image, r'.Text()).value;
    if |e.before| < |r.before| {
      EarlierEndsEarlier(image, r', e);
      EarlierWasThere(image, r, r', e);
    }
  }

  lemma EarlierWasThere(image: ImageName, r: Ref, r': Ref, e: Ref)
    requires WellFormed(image, r) && WellFormed(image, e) && r'.Text() == e.Text() && r' == r.(tag := r'.tag)
    requires |e.before| + |e.head| + 1 < |r.before| + |r.head|
    requires FindRef(image, r.Text()) == Some(r)
    ensures |e.before| >= |r.before|
  {
    var n := |e.before| + |e.head|;
    SameUpToTag(r, r'.tag, n + 1);
    StartOf(e);
    assert r.Text()[..n] == r.Text()[..n + 1][..n];
    assert r.Text()[n] == r.Text()[..n + 1][n] == e.tag[0];
    PrefixMakesRef(image, r.Text(), e.before, e.head);
  }

  lemma SameUpToTag(r: Ref, tag: string, n: nat)
    requires n <= |r.before| + |r.head|
    ensures n <= |r.Text()| && n <= |r.(tag := tag).Text()| && r.Text()[..n] == r.(tag := tag).Text()[..n]
  {
    var kept := r.before + r.head;
    assert r.Text() == kept + (r.tag + r.post) && r.(tag := tag).Text() == kept + (tag + r.post);
  }

  lemma StartOf(e: Ref)
    requires e.tag != ""
    ensures var n := |e.before| + |e.head|;
            n < |e.Text()| && e.Text()[..n] == e.before + e.head && e.Text()[..n + 1][..n] == e.before + e.head
            && e.Text()[..n + 1][n] == e.tag[0]
  {
    assert e.Text() == (e.before + e.head) + (e.tag + e.post);
  }

  // ----- is it only the tag that changes?

  /** A character of a tag proper. */
  predicate IsTagChar(c: char) {
    'a' <= c <= 'z' || 'A' <= c <= 'Z' || '0' <= c <= '9' || c == '_' || c == '.' || c == '-'
  }

  /** How much of the text replaced is a tag. */
  function TagLength(s: string): (n: nat)
    ensures n <= |s| && (n == |s| <==> forall i :: 0 <= i < |s| ==> IsTagChar(s[i]))
  {
    if s != "" && IsTagChar(s[0]) then 1 + TagLength(s[1..]) else 0
  }

  /** Only the tag changes exactly if nothing but a tag stands before the next blank or quote; otherwise
      the rest of that text is lost. */
  lemma OnlyTagChangesExactly(image: ImageName, s: string, v: string)
    requires FindRef(image, s).Some?
    ensures var r := FindRef(image, s).value;
            PinLine(image, s, v) == r.before + (r.head + (v + (r.tag[TagLength(r.tag)..] + r.post)))
            <==> forall i :: 0 <= i < |r.tag| ==> IsTagChar(r.tag[i])
  {
    var r := FindRef(image, s).value;
    var left := r.tag[TagLength(r.tag)..];
    assert |r.before + (r.head + (v + (left + r.post)))| == |PinLine(image, s, v)| + |left|;
    if left == "" { assert left + r.post == r.post; }
  }

  lemma PlainHead(image: ImageName)
    ensures HeadWith(image, "image: " + (image + ":"), 1)
  {
    var head := "image: " + (image + ":");
    assert head[..|KEY|] == KEY && head[|KEY| + 1..|head| - 1] == image;
  }

  /** An input that loses more: a reference in a flow mapping, whose closing brace goes with the tag. */
  lemma FlowMappingLosesItsBrace(image: ImageName, tag: string, v: string)
    requires tag != "" && AllTagText(tag)
    ensures PinLine(image, "wha: {" + ("image: " + (image + ":") + (tag + "}")), v) == "wha: {" + ("image: " + (image + ":") + v)
  {
    PlainHead(image);
    var r := Ref("wha: {", "image: " + (image + ":"), tag + "}", "");
    assert tag + "}" + "" == tag + "}";
    assert r.Text() == "wha: {" + ("image: " + (image + ":") + (tag + "}"));
    FindsFirst(image, r);
    assert r.(tag := v).Text() == "wha: {" + ("image: " + (image + ":") + v);
  }

  lemma StartsWithIM(image: ImageName, r: Ref)
    requires WellFormed(image, r)
    ensures |r.before| + 1 < |r.Text()| && r.Text()[|r.before| + 1] == 'm'
  {
    assert r.head[..|KEY|][1] == 'm';
  }

  lemma {:induction false} FoundAtStart(image: ImageName, s: string)
    requires FindRef(image, s).Some? && FindRef(image, s).value.before == ""
    ensures RefAt(image, s).Some?
  {
  }

  lemma QuotedNameFollowsNot(image: ImageName, rest: string)
    ensures !NameFollows(image, " \"" + rest)
  {
    var quoted := "\"" + rest;
    SkipsAllBlanks(" ", quoted);
    assert " " + quoted == " \"" + rest;
    assert IsNameChar(image[0]);
    assert quoted[0] == '"';
    assert |quoted| > |image| ==> quoted[..|image|][0] == '"';
  }

  /** An input that is overlooked: a quoted reference. */
  lemma QuotedReferenceIsOverlooked(image: ImageName, rest: string)
    requires 'm' !in rest
    ensures FindRef(image, "image: \"" + rest).None?
  {
    hide RefAt, NameFollows, SkipBlanks;
    var s := "image: \"" + rest;
    assert s[|KEY|..] == " \"" + rest;
    QuotedNameFollowsNot(image, rest);
    assert forall k :: 2 <= k < |s| ==> s[k] != 'm';
    if FindRef(image, s).Some? {
      StartsWithIM(image, FindRef(image, s).value);
      FoundAtStart(image, s);
    }
  }

  /** Text taken for the image's name is that name exactly if it has a dot wherever the name has one. */
  lemma NameIsExactly(image: ImageName, w: string)
    requires MatchesName(image, w)
    ensures w == image <==> forall i :: 0 <= i < |image| && image[i] == '.' ==> w[i] == '.'
  {
  }

  // ----- the whole file

  /** The compose file, and the image whose references in it are pinned. */
  datatype File = File(image: ImageName, lines: seq<string>)
  {
    function Ref(i: nat): Option<Ref> requires i < |lines| { FindRef(image, lines[i]) }

    function Pin(v: string): File {
      File(image, seq(|lines|, i requires 0 <= i < |lines| => PinLine(image, lines[i], v)))
    }

    /** Every reference found names version `v`. */
    ghost predicate AllPinned(v: string) {
      forall i :: 0 <= i < |lines| && Ref(i).Some? ==> Ref(i).value.tag == v
    }

    ghost predicate HasRef() {
      exists i :: 0 <= i < |lines| && Ref(i).Some?
    }

    lemma PinPins(v: string)
      requires v != "" && AllTagText(v)
      ensures Pin(v).AllPinned(v) && (Pin(v).HasRef() <==> HasRef()) && SameButTags(Pin(v))
    {
      forall i | 0 <= i < |lines|
        ensures Pin(v).Ref(i) == if Ref(i).Some? then Some(Ref(i).value.(tag := v)) else None
      {
        if Ref(i).Some? { PinKeepsPlace(image, lines[i], v); }
      }
      if HasRef() {
        var i :| 0 <= i < |lines| && Ref(i).Some?;
        assert Pin(v).Ref(i).Some?;
      }
    }

    /** A file with a reference names at most one version, one without names any. */
    lemma OneVersion(v: string, w: string)
      requires AllPinned(v)
      ensures AllPinned(w) <==> v == w || !HasRef()
    {
      if HasRef() {
        var i :| 0 <= i < |lines| && Ref(i).Some?;
        assert Ref(i).value.tag == v;
      }
    }

    /** The other file has the same lines but for the tags of the references found in this one. */
    ghost predicate SameButTags(f: File) {
      && f.image == image && |f.lines| == |lines|
      && forall i :: 0 <= i < |lines| ==>
           if Ref(i).None? then f.lines[i] == lines[i]
           else f.Ref(i).Some? && f.Ref(i).value == Ref(i).value.(tag := f.Ref(i).value.tag)
    }
  }
}
