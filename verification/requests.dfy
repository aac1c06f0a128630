/** The request file: how wha writes it, how the sidecar reads it, and which versions the sidecar takes. */
module Requests {
  import opened Config
  import opened Text
  import opened Semver
  import opened Compose
  import Decimal
  import Timestamps

  // ----- which versions the sidecar takes

  /** The sidecar's own check looks at one line at a time: some line has to be X.Y.Z. */
  predicate Accepts(v: string) {
    var lines := Split(v, '\n');
    exists i :: 0 <= i < |lines| && IsSemver(lines[i])
  }

  /** A version is taken although it is not X.Y.Z exactly if it is taken and spans lines. */
  lemma AcceptsMoreExactly(v: string)
    ensures IsSemver(v) ==> Accepts(v)
    ensures Accepts(v) ==> (IsSemver(v) <==> '\n' !in v)
  {
    if '\n' in v {
      if IsSemver(v) { SemverIsPlain(v); }
    } else {
      SplitJoin([v], '\n');
    }
  }

  /** An input: any valid version followed by a line of anything. */
  lemma SecondLineIsTaken(v: string, more: string)
    requires IsSemver(v)
    ensures Accepts(v + ("\n" + more)) && !IsSemver(v + ("\n" + more))
  {
    var both := v + ("\n" + more);
    SemverIsPlain(v);
    IndexSkips(v, '\n', more);
    assert both[..|v|] == v;
    assert Split(both, '\n')[0] == v;
    assert both[|v|] == '\n';
    AcceptsMoreExactly(both);
  }

  /** A version as the status file shows it: on one line. */
  function Flat(v: string): string {
    if v == "" then "" else (if v[0] == '\n' || v[0] == '\r' then "" else [v[0]]) + Flat(v[1..])
  }

  lemma SemverIsPlain(v: string)
    requires IsSemver(v)
    ensures v != "" && AllTagText(v) && 'V' !in v && '"' !in v && '\n' !in v && '\r' !in v
  {
    SemverShape(v);
  }

  lemma {:induction false} FlatIsSame(v: string)
    requires '\n' !in v && '\r' !in v
    ensures Flat(v) == v
  {
    if v != "" { FlatIsSame(v[1..]); }
  }

  // ----- the request file

  const VERSION_KEY := "\"targetVersion\""

  /** The quoted value of the version key, if the text starts with that key. */
  function Captured(s: string): Option<string> {
    if |s| < |VERSION_KEY| || s[..|VERSION_KEY|] != VERSION_KEY then None else
    var colon := SkipBlanks(s[|VERSION_KEY|..]);
    if colon == "" || colon[0] != ':' then None else
    var quote := SkipBlanks(colon[1..]);
    if quote == "" || quote[0] != '"' then None else
    var n := IndexOf(quote[1..], '"');
    if n == |quote| - 1 then None else Some(quote[1..][..n])
  }

  /** What the sidecar's pattern extracts from one line: the last place it matches wins. */
  function LastCaptured(s: string): Option<string> {
    if s == "" then None
    else
      var later := LastCaptured(s[1..]);
      if later.Some? then later else Captured(s)
  }

  /** The values extracted line by line. */
  function Captures(lines: seq<string>): seq<string> {
    if lines == [] then []
    else (if LastCaptured(lines[0]).Some? then [LastCaptured(lines[0]).value] else []) + Captures(lines[1..])
  }

  function DropNewlines(s: string): string {
    if s != "" && s[|s| - 1] == '\n' then DropNewlines(s[..|s| - 1]) else s
  }

  /** The version as the sidecar has it: one line per match, without trailing line ends. */
  function Extract(body: string): string {
    var values := Captures(Split(body, '\n'));
    if values == [] then "" else DropNewlines(Join(values, '\n'))
  }

  /** The request as the program encodes it. */
  function Body(version: string, at: string): string {
    "{" + (VERSION_KEY + (":\"" + (version + ("\",\"requestedAt\":\"" + (at + "\"}")))))
  }

  lemma {:induction false} NoKeyNoCapture(s: string)
    requires 'V' !in s
    ensures LastCaptured(s).None?
  {
    if s != "" {
      assert VERSION_KEY[7] == 'V';
      NoKeyNoCapture(s[1..]);
    }
  }

  lemma {:induction false} UnquotedIsSkipped(a: string, rest: string)
    requires '"' !in a && LastCaptured(rest).None?
    ensures LastCaptured(a + rest).None?
  {
    if a == "" {
      assert a + rest == rest;
    } else {
      assert (a + rest)[1..] == a[1..] + rest;
      assert (a + rest)[0] == a[0] && VERSION_KEY[0] == '"';
      UnquotedIsSkipped(a[1..], rest);
    }
  }

  lemma CapturesValue(v: string, rest: string)
    requires '"' !in v
    ensures Captured(VERSION_KEY + (":\"" + (v + ("\"" + rest)))) == Some(v)
  {
    var tail := v + ("\"" + rest);
    var colon := ":\"" + tail;
    assert (VERSION_KEY + colon)[..|VERSION_KEY|] == VERSION_KEY && (VERSION_KEY + colon)[|VERSION_KEY|..] == colon;
    assert colon[1..] == "\"" + tail && ("\"" + tail)[1..] == tail;
    IndexSkips(v, '"', rest);
    assert tail[..|v|] == v;
  }

  lemma StampHasNot(t: Timestamps.Civil, k: nat, c: char)
    requires k <= 9 && !Decimal.IsDigit(c) && c != '-' && c != 'T' && c != ':' && c != '.' && c != 'Z'
    ensures c !in Timestamps.FormatShort(t, k)
  {
    hide Decimal.Pad, Decimal.Pow10, Timestamps.Quotient;
  }

  lemma StampIsPlain(c: Timestamps.Civil, k: nat)
    requires k <= 9
    ensures 'V' !in Timestamps.FormatShort(c, k) && '\n' !in Timestamps.FormatShort(c, k)
  {
    StampHasNot(c, k, 'V');
    StampHasNot(c, k, '\n');
  }

  lemma KeyIsFound(before: string, v: string, rest: string)
    requires '"' !in before && '"' !in v && 'V' !in v && 'V' !in rest
    ensures LastCaptured(before + (VERSION_KEY + (":\"" + (v + ("\"" + rest))))) == Some(v)
    decreases |before|
  {
    hide Captured;
    var value := ":\"" + (v + ("\"" + rest));
    var s := before + (VERSION_KEY + value);
    if before == "" {
      var key := "targetVersion";
      assert s == VERSION_KEY + value;
      assert VERSION_KEY == "\"" + (key + "\"");
      assert s[1..] == key + ("\"" + value);
      NoKeyNoCapture("\"" + value);
      UnquotedIsSkipped(key, "\"" + value);
      CapturesValue(v, rest);
    } else {
      assert s[1..] == before[1..] + (VERSION_KEY + value);
      KeyIsFound(before[1..], v, rest);
    }
  }

  /** The sidecar reads back exactly the version that was requested. */
  lemma RequestReadsBack(v: string, c: Timestamps.Civil, k: nat)
    requires IsSemver(v) && k <= 9
    ensures Extract(Body(v, Timestamps.FormatShort(c, k))) == v
  {
    hide LastCaptured, IsSemver, Timestamps.FormatShort, Extract;
    var at := Timestamps.FormatShort(c, k);
    SemverIsPlain(v);
    StampIsPlain(c, k);
    var rest := ",\"requestedAt\":\"" + (at + "\"}");
    assert "\",\"requestedAt\":\"" + (at + "\"}") == "\"" + rest;
    KeyIsFound("{", v, rest);
    OneLineExtracts(Body(v, at), v);
  }

  lemma OneLineExtracts(body: string, v: string)
    requires '\n' !in body && LastCaptured(body) == Some(v) && '\n' !in v
    ensures Extract(body) == v
  {
    SplitJoin([body], '\n');
    assert Captures([body]) == [v];
  }

  /** A request file of two lines that both name a version gives two lines. */
  lemma TwoLinesExtract(first: string, second: string, v: string, w: string)
    requires '\n' !in first && '\n' !in second && LastCaptured(first) == Some(v) && LastCaptured(second) == Some(w)
    requires w != "" && '\n' !in w
    ensures Extract(first + ("\n" + second)) == v + ("\n" + w)
  {
    SplitJoin([first, second], '\n');
    assert [first, second][1..] == [second] && [v, w][1..] == [w];
    assert Join([first, second], '\n') == first + ("\n" + second);
    assert Captures([second]) == [w];
    assert Captures([first, second]) == [v, w];
    assert Join([v, w], '\n') == v + ("\n" + w);
  }
}
