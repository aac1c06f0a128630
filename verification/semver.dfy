/** Picking the newest release: version order, the paginated tag list, and its highest X.Y.Z tag. */
module Semver {
  import opened Config
  import opened Text
  import opened Decimal
  import Tags

  /** X.Y.Z with decimal components, nothing before or after. */
  predicate IsSemver(s: string) {
    var p := Split(s, '.');
    |p| == 3 && forall i :: 0 <= i < 3 ==> p[i] != "" && AllDigits(p[i])
  }

  predicate Component(s: string) { s != "" && AllDigits(s) }

  lemma DigitsHaveNoDot(s: string)
    requires AllDigits(s)
    ensures '.' !in s
  {
  }

  lemma JoinThree(a: string, b: string, c: string)
    ensures Join([a, b, c], '.') == a + ("." + (b + ("." + c)))
  {
    assert [a, b, c][1..] == [b, c] && [b, c][1..] == [c];
    assert Join([b, c], '.') == b + (['.'] + Join([c], '.'));
  }

  /** The dotted form spelled out: three components, two dots, nothing else. */
  lemma SemverShape(s: string)
    ensures IsSemver(s) <==>
              exists a, b, c :: Component(a) && Component(b) && Component(c) && s == a + ("." + (b + ("." + c)))
  {
    if IsSemver(s) {
      var p := Split(s, '.');
      JoinSplit(s, '.');
      assert p == [p[0], p[1], p[2]];
      JoinThree(p[0], p[1], p[2]);
      assert Component(p[0]) && Component(p[1]) && Component(p[2]);
      assert s == p[0] + ("." + (p[1] + ("." + p[2])));
    }
    if a, b, c :| Component(a) && Component(b) && Component(c) && s == a + ("." + (b + ("." + c))) {
      ThreeComponents(a, b, c);
    }
  }

  lemma ThreeComponents(a: string, b: string, c: string)
    requires Component(a) && Component(b) && Component(c)
    ensures IsSemver(a + ("." + (b + ("." + c))))
  {
    var p := [a, b, c];
    DigitsHaveNoDot(a);
    DigitsHaveNoDot(b);
    DigitsHaveNoDot(c);
    JoinThree(a, b, c);
    SplitJoin(p, '.');
  }

  datatype Version = Version(major: nat, minor: nat, patch: nat)

  function VersionOf(s: string): Version requires IsSemver(s) {
    var p := Split(s, '.');
    Version(Value(p[0]), Value(p[1]), Value(p[2]))
  }

  function Sign(a: int, b: int): int { if a > b then 1 else if a < b then -1 else 0 }

  /** Precedence of section 11 of Semantic Versioning 2.0.0 for versions without pre-release. */
  function Precedence(a: Version, b: Version): int {
    if a.major != b.major then Sign(a.major, b.major)
    else if a.minor != b.minor then Sign(a.minor, b.minor)
    else Sign(a.patch, b.patch)
  }

  function ClampInt(n: nat): nat { if n > MAX_INT then MAX_INT else n }

  /** A component too large for an int reads as the largest int. */
  function Clamp(v: Version): Version {
    Version(ClampInt(v.major), ClampInt(v.minor), ClampInt(v.patch))
  }

  /** How the program orders two valid tags. */
  function Order(a: string, b: string): int requires IsSemver(a) && IsSemver(b) {
    Precedence(Clamp(VersionOf(a)), Clamp(VersionOf(b)))
  }

  function AtoiSaturating(s: string): int requires AllDigits(s) {
    ClampInt(Value(s))
  }

  method CompareSemver(a: string, b: string) returns (c: int)
    requires IsSemver(a) && IsSemver(b)
    ensures c == Order(a, b)
  {
    var pa, pb := Split(a, '.'), Split(b, '.');
    for i := 0 to 3
      invariant forall k :: 0 <= k < i ==> AtoiSaturating(pa[k]) == AtoiSaturating(pb[k])
    {
      var na, nb := AtoiSaturating(pa[i]), AtoiSaturating(pb[i]);
      if na != nb {
        return if na > nb then 1 else -1;
      }
    }
    return 0;
  }

  predicate FitsInt(v: Version) { v.major <= MAX_INT && v.minor <= MAX_INT && v.patch <= MAX_INT }

  /** The program's order is a total preorder on all valid tags, and true precedence whenever the
      components fit an int. */
  lemma OrderIsPrecedence(a: string, b: string, c: string)
    requires IsSemver(a) && IsSemver(b) && IsSemver(c)
    ensures Order(a, b) == -Order(b, a)
    ensures Order(a, b) <= 0 && Order(b, c) <= 0 ==> Order(a, c) <= 0
    ensures FitsInt(VersionOf(a)) && FitsInt(VersionOf(b)) ==> Order(a, b) == Precedence(VersionOf(a), VersionOf(b))
  {
  }

  function Render(v: Version): string {
    Join([Itoa(v.major), Itoa(v.minor), Itoa(v.patch)], '.')
  }

  /** Every version has a valid tag that reads back as that version. */
  lemma RenderReadsBack(v: Version)
    ensures IsSemver(Render(v)) && VersionOf(Render(v)) == v
  {
    var parts := [Itoa(v.major), Itoa(v.minor), Itoa(v.patch)];
    forall i | 0 <= i < 3 ensures '.' !in parts[i] { DigitsHaveNoDot(parts[i]); }
    SplitJoin(parts, '.');
    ItoaReadsBack(v.major);
    ItoaReadsBack(v.minor);
    ItoaReadsBack(v.patch);
  }

  predicate BelowMax(v: Version) { v.major < MAX_INT && v.minor < MAX_INT && v.patch < MAX_INT }

  /** One more in the first component that is not below the largest int. */
  function Successor(v: Version): Version {
    if v.major >= MAX_INT then v.(major := v.major + 1)
    else if v.minor >= MAX_INT then v.(minor := v.minor + 1)
    else v.(patch := v.patch + 1)
  }

  /** A tag is ordered by precedence against every valid tag exactly if all its components are strictly
      below the largest int: one equal to it already ties with its successor. */
  lemma PrecedenceExactlyBelowMax(a: string)
    requires IsSemver(a)
    ensures (forall b :: IsSemver(b) ==> Order(a, b) == Precedence(VersionOf(a), VersionOf(b))) <==> BelowMax(VersionOf(a))
  {
    var v := VersionOf(a);
    if !BelowMax(v) {
      var b := Render(Successor(v));
      RenderReadsBack(Successor(v));
      assert IsSemver(b) && Order(a, b) == 0 && Precedence(v, VersionOf(b)) == -1;
    }
  }

  /** Beyond an int the order is not precedence: these two tags tie although one is newer. */
  lemma HugeComponentsTie()
    ensures exists a, b :: IsSemver(a) && IsSemver(b) && Order(a, b) == 0 && Precedence(VersionOf(a), VersionOf(b)) > 0
  {
    var a, b := Version(0, 0, MAX_INT + 1), Version(0, 0, MAX_INT);
    RenderReadsBack(a);
    RenderReadsBack(b);
    assert Order(Render(a), Render(b)) == 0;
  }

  function Newer(current: string, latest: string): bool {
    IsSemver(current) && IsSemver(latest) && Order(latest, current) > 0
  }

  /** An offered update is a strict order on all strings, valid or not: no version offers itself, no
      two offer each other, and offers chain. */
  lemma NewerIsStrictOrder(a: string, b: string, c: string)
    ensures !Newer(a, a)
    ensures Newer(a, b) ==> !Newer(b, a)
    ensures Newer(a, b) && Newer(b, c) ==> Newer(a, c)
  {
  }

  /** An update from one version to another is offered exactly if at the first component in which they
      differ the other's is greater, components beyond the largest int counting as the largest int; to or
      from anything that is not X.Y.Z it never is. */
  lemma NewerExactly(v: Version, w: Version, s: string)
    ensures var cap := (n: nat) => if n < 0x7fff_ffff_ffff_ffff then n else 0x7fff_ffff_ffff_ffff;
            Newer(Render(v), Render(w)) <==>
              || cap(w.major) > cap(v.major)
              || (cap(w.major) == cap(v.major) && cap(w.minor) > cap(v.minor))
              || (cap(w.major) == cap(v.major) && cap(w.minor) == cap(v.minor) && cap(w.patch) > cap(v.patch))
    ensures !IsSemver(s) ==> !Newer(s, Render(v)) && !Newer(Render(v), s)
  {
    hide IsSemver, VersionOf, Render;
    RenderReadsBack(v);
    RenderReadsBack(w);
  }

  /** The newest listed tag is offered exactly if some listed tag is. */
  lemma NewestIsOffered(best: string, listed: string -> bool, current: string)
    requires Tags.IsNewest(IsSemver, Compare, best, listed)
    ensures Newer(current, best) <==> exists t :: listed(t) && Newer(current, t)
  {
    hide IsSemver, VersionOf;
    assert !IsSemver("") by { NotSemver(); }
    if t :| listed(t) && Newer(current, t) {
      assert listed(t) && IsSemver(t) && Compare(t, best) <= 0;
    }
  }

  lemma NotSemver()
    ensures !IsSemver("")
  {
  }

  /** The comparison handed to the sort, totalised: anything else ranks below valid tags. */
  function Compare(a: string, b: string): int {
    if IsSemver(a) && IsSemver(b) then Order(a, b) else if IsSemver(a) then 1 else if IsSemver(b) then -1 else 0
  }

  /** When the registry's listing ends within the page limit, the tag found is the newest on any page. */
  method LatestSemver(registry: Tags.Registry, first: string, sort: seq<string> -> seq<string>) returns (best: Option<string>)
    requires Tags.SortsDescending(IsSemver, Compare, sort)
    ensures best.None? <==> Tags.Pages(registry, first, 100).None?
    ensures Tags.EndsWithin(registry, first, 100) ==>
              best.Some? && Tags.IsNewest(IsSemver, Compare, best.value, t => Tags.Listed(registry, first, t))
    ensures Tags.EndsWithin(registry, first, 100) ==>
              forall current :: Newer(current, best.value) <==> exists t :: Tags.Listed(registry, first, t) && Newer(current, t)
  {
    hide Newer, Tags.Listed;
    best := Tags.Latest(registry, first, IsSemver, Compare, sort);
    if Tags.EndsWithin(registry, first, Tags.MAX_PAGES) {
      forall current ensures Newer(current, best.value) <==> exists t :: Tags.Listed(registry, first, t) && Newer(current, t) {
        NewestIsOffered(best.value, t => Tags.Listed(registry, first, t), current);
      }
    }
  }
}

/** The paginated tag list and the highest valid tag on it, for any notion of valid and of higher. */
module Tags {
  import opened Config

  /** Valid, on the list, and beaten by no valid tag of the list; empty when the list has no valid tag. */
  ghost predicate IsNewest(valid: string -> bool, ord: (string, string) -> int, best: string, listed: string -> bool) {
    if exists t :: listed(t) && valid(t)
    then valid(best) && listed(best) && forall t :: listed(t) && valid(t) ==> ord(t, best) <= 0
    else best == ""
  }

  /** What is used of the library sort: valid tags come out permuted, none before one that beats it. */
  ghost predicate SortsDescending(valid: string -> bool, ord: (string, string) -> int, sort: seq<string> -> seq<string>) {
    forall s :: (forall t :: t in s ==> valid(t)) ==> Descending(ord, sort(s)) && Permuted(s, sort(s))
  }

  ghost predicate Descending(ord: (string, string) -> int, s: seq<string>) {
    forall i, j :: 0 <= i <= j < |s| ==> ord(s[j], s[i]) <= 0
  }

  ghost predicate Permuted(s: seq<string>, t: seq<string>) {
    multiset(s) == multiset(t)
  }

  lemma PermutedHolds(s: seq<string>, t: seq<string>)
    requires Permuted(s, t)
    ensures |s| == |t| && forall x :: x in s <==> x in t
  {
    assert |multiset(s)| == |s| && |multiset(t)| == |t|;
    forall x ensures x in s <==> x in t {
      assert x in s <==> x in multiset(s);
      assert x in t <==> x in multiset(t);
    }
  }

  method MaxTag(tags: seq<string>, valid: string -> bool, ghost ord: (string, string) -> int,
                sort: seq<string> -> seq<string>) returns (best: string)
    requires SortsDescending(valid, ord, sort)
    ensures IsNewest(valid, ord, best, t => t in tags)
  {
    var kept: seq<string> := [];
    for i := 0 to |tags|
      invariant forall t :: t in kept <==> t in tags[..i] && valid(t)
    {
      if valid(tags[i]) { kept := kept + [tags[i]]; }
    }
    assert tags[..|tags|] == tags;
    if |kept| == 0 { return ""; }
    var sorted := sort(kept);
    PermutedHolds(kept, sorted);
    best := sorted[0];
    assert best in kept && kept[0] in kept;
  }

  // ----- pagination

  const MAX_PAGES := 100

  /** What the registry answers: nothing on an error, else the page's tags and the next page's address,
      empty on the last page. */
  type Registry = string -> Option<(seq<string>, string)>

  /** The tags of at most `n` pages from `url` on; None if one of them fails. */
  function Pages(registry: Registry, url: string, n: nat): Option<seq<string>>
    decreases n
  {
    if url == "" || n == 0 then Some([])
    else
      var page := registry(url);
      if page.None? then None
      else
        var rest := Pages(registry, page.value.1, n - 1);
        if rest.None? then None else Some(page.value.0 + rest.value)
  }

  /** The address reached from `url` after `k` next-links; empty past the last page or a failing one. */
  function Address(registry: Registry, url: string, k: nat): string
    decreases k
  {
    if url == "" || k == 0 then url
    else if registry(url).None? then ""
    else Address(registry, registry(url).value.1, k - 1)
  }

  predicate FailsAt(registry: Registry, url: string, k: nat) {
    Address(registry, url, k) != "" && registry(Address(registry, url, k)).None?
  }

  /** The listing fails exactly if one of the first `n` pages does. */
  lemma {:induction false} ListingFailsExactly(registry: Registry, url: string, n: nat)
    ensures Pages(registry, url, n).None? <==> exists k: nat :: k < n && FailsAt(registry, url, k)
    decreases n
  {
    if url != "" && n > 0 {
      if registry(url).None? {
        assert FailsAt(registry, url, 0);
      } else {
        var next := registry(url).value.1;
        ListingFailsExactly(registry, next, n - 1);
        if k: nat :| k < n && FailsAt(registry, url, k) { assert FailsAt(registry, next, k - 1); }
        if k: nat :| k < n - 1 && FailsAt(registry, next, k) { assert FailsAt(registry, url, k + 1); }
      }
    }
  }

  /** The listing ends, without an error, within `n` pages. */
  predicate EndsWithin(registry: Registry, url: string, n: nat)
    decreases n
  {
    url == "" || (n > 0 && registry(url).Some? && EndsWithin(registry, registry(url).value.1, n - 1))
  }

  /** `tag` is on the page reached from `url` after `k` next-links, however many there are. */
  predicate OnPage(registry: Registry, url: string, k: nat, tag: string)
    decreases k
  {
    url != "" && registry(url).Some?
    && if k == 0 then tag in registry(url).value.0 else OnPage(registry, registry(url).value.1, k - 1, tag)
  }

  ghost predicate Listed(registry: Registry, url: string, tag: string) {
    exists k: nat :: OnPage(registry, url, k, tag)
  }

  method FetchTags(registry: Registry, first: string) returns (r: Option<seq<string>>)
    ensures r == Pages(registry, first, 100)
  {
    var next, all, page := first, [], 0;
    ghost var whole := Pages(registry, first, MAX_PAGES);
    assert whole.Some? ==> [] + whole.value == whole.value;
    while next != "" && page < MAX_PAGES
      invariant page <= MAX_PAGES
      invariant var rest := Pages(registry, next, MAX_PAGES - page);
                whole == if rest.None? then None else Some(all + rest.value)
    {
      var answer := registry(next);
      if answer.None? { return None; }
      ghost var rest := Pages(registry, answer.value.1, MAX_PAGES - page - 1);
      assert rest.Some? ==> all + (answer.value.0 + rest.value) == (all + answer.value.0) + rest.value;
      all := all + answer.value.0;
      next := answer.value.1;
      page := page + 1;
    }
    assert all + [] == all;
    r := Some(all);
  }

  lemma {:induction false} PagesCover(registry: Registry, url: string, n: nat, k: nat, tag: string)
    requires EndsWithin(registry, url, n) && OnPage(registry, url, k, tag)
    ensures Pages(registry, url, n).Some? && tag in Pages(registry, url, n).value
    decreases n
  {
    PagesSucceed(registry, url, n);
    if k > 0 { PagesCover(registry, registry(url).value.1, n - 1, k - 1, tag); }
  }

  lemma {:induction false} PagesSucceed(registry: Registry, url: string, n: nat)
    requires EndsWithin(registry, url, n)
    ensures Pages(registry, url, n).Some?
    decreases n
  {
    if url != "" { PagesSucceed(registry, registry(url).value.1, n - 1); }
  }

  lemma {:induction false} PageOf(registry: Registry, url: string, n: nat, tag: string) returns (k: nat)
    requires Pages(registry, url, n).Some? && tag in Pages(registry, url, n).value
    ensures OnPage(registry, url, k, tag)
    decreases n
  {
    if tag in registry(url).value.0 {
      k := 0;
    } else {
      var j := PageOf(registry, registry(url).value.1, n - 1, tag);
      k := j + 1;
    }
  }

  /** Within the page limit, the tags collected are exactly the tags listed. */
  lemma PagesAreListing(registry: Registry, url: string, n: nat, tag: string)
    requires EndsWithin(registry, url, n)
    ensures Pages(registry, url, n).Some?
    ensures tag in Pages(registry, url, n).value <==> Listed(registry, url, tag)
  {
    PagesSucceed(registry, url, n);
    if tag in Pages(registry, url, n).value { var k := PageOf(registry, url, n, tag); }
    if k: nat :| OnPage(registry, url, k, tag) { PagesCover(registry, url, n, k, tag); }
  }

  lemma SameListing(valid: string -> bool, ord: (string, string) -> int, best: string, l: string -> bool, m: string -> bool)
    requires IsNewest(valid, ord, best, l) && forall t :: l(t) <==> m(t)
    ensures IsNewest(valid, ord, best, m)
  {
  }

  method Latest(registry: Registry, first: string, valid: string -> bool, ghost ord: (string, string) -> int,
                sort: seq<string> -> seq<string>) returns (best: Option<string>)
    requires SortsDescending(valid, ord, sort)
    ensures best.None? <==> Pages(registry, first, MAX_PAGES).None?
    ensures EndsWithin(registry, first, MAX_PAGES) ==>
              best.Some? && IsNewest(valid, ord, best.value, t => Listed(registry, first, t))
  {
    var tags := FetchTags(registry, first);
    if tags.None? {
      if EndsWithin(registry, first, MAX_PAGES) { PagesSucceed(registry, first, MAX_PAGES); }
      return None;
    }
    var b := MaxTag(tags.value, valid, ord, sort);
    best := Some(b);
    if EndsWithin(registry, first, MAX_PAGES) {
      forall t ensures t in tags.value <==> Listed(registry, first, t) {
        PagesAreListing(registry, first, MAX_PAGES, t);
      }
      SameListing(valid, ord, b, t => t in tags.value, t => Listed(registry, first, t));
    }
  }
}
