/** Connection strings (src/util/connection_string_helper.cc): "KEY=value;KEY=value".

    The source searches for the pattern `([^;=]+)=([^;]+)` again and again; here that loop is proved to compute what
    splitting on semicolons computes, and parsing is proved to undo building. */
module ConnectionString {
  import opened Basics

  type ConnMap = map<string, string>

  // ---- one regular-expression search ----

  function KeyEnd(s: string, i: nat): (e: nat)
    requires i <= |s|
    ensures i <= e <= |s|
    ensures forall j | i <= j < e :: s[j] != '=' && s[j] != ';'
    ensures e < |s| ==> s[e] == '=' || s[e] == ';'
    decreases |s| - i
  {
    if i == |s| || s[i] == '=' || s[i] == ';' then i else KeyEnd(s, i + 1)
  }

  function ValueEnd(s: string, i: nat): (e: nat)
    requires i <= |s|
    ensures i <= e <= |s|
    ensures forall j | i <= j < e :: s[j] != ';'
    ensures e < |s| ==> s[e] == ';'
    decreases |s| - i
  {
    if i == |s| || s[i] == ';' then i else ValueEnd(s, i + 1)
  }

  datatype Match = Match(start: nat, equals: nat, end: nat)

  /** `s[m.start..m.end]` is matched by the pattern, its two groups split at the equals sign. */
  ghost predicate Matches(s: string, m: Match) {
    && m.start < m.equals && m.equals + 1 < m.end <= |s| && s[m.equals] == '='
    && (forall j | m.start <= j < m.equals :: s[j] != '=' && s[j] != ';')
    && (forall j | m.equals < j < m.end :: s[j] != ';')
  }

  predicate MatchAt(s: string, i: nat)
    requires i <= |s|
  {
    var e := KeyEnd(s, i);
    i < e && e + 1 < |s| && s[e] == '=' && s[e + 1] != ';'
  }

  /** Leftmost, greedy search from position `i` on. */
  function Search(s: string, i: nat): Option<Match>
    requires i <= |s|
    decreases |s| - i
  {
    if MatchAt(s, i) then Some(Match(i, KeyEnd(s, i), ValueEnd(s, KeyEnd(s, i) + 1)))
    else if i == |s| then None
    else Search(s, i + 1)
  }

  /** The search finds the leftmost match and the longest one there, or there is none at all. */
  lemma {:induction false} SearchIsLeftmostGreedy(s: string, i: nat, m: Match)
    requires i <= |s| && Matches(s, m) && i <= m.start
    ensures Search(s, i).Some?
    ensures var found := Search(s, i).value;
            && Matches(s, found) && i <= found.start <= m.start
            && (found.start == m.start ==> found.equals == m.equals && m.end <= found.end)
    decreases |s| - i
  {
    assert KeyEnd(s, m.start) == m.equals;
    if !MatchAt(s, i) {
      SearchIsLeftmostGreedy(s, i + 1, m);
    }
  }

  // ---- parsing, as the source does it ----

  function UpperChar(c: char): char {
    if 'a' <= c <= 'z' then c - 'a' + 'A' else c
  }

  function Upper(s: string): (u: string)
    ensures |u| == |s|
    ensures forall i | 0 <= i < |s| :: u[i] == UpperChar(s[i])
  {
    if s == "" then "" else [UpperChar(s[0])] + Upper(s[1..])
  }

  /** The search-and-suffix loop. */
  function Scanned(s: string, dest: ConnMap): ConnMap
    decreases |s|
  {
    match Search(s, 0)
    case None => dest
    case Some(m) =>
      SearchSound(s, 0);
      Scanned(s[m.end..], dest[Upper(s[m.start..m.equals]) := s[m.equals + 1..m.end]])
  }

  lemma {:induction false} SearchSound(s: string, i: nat)
    requires i <= |s|
    ensures Search(s, i).Some? ==> Matches(s, Search(s, i).value)
    decreases |s| - i
  {
    if !MatchAt(s, i) && i < |s| {
      SearchSound(s, i + 1);
    }
  }

  // ---- parsing, the plain way ----

  function Segments(s: string): seq<string>
    decreases |s|
  {
    var i := IndexOf(s, ';');
    if i == |s| then [s] else [s[..i]] + Segments(s[i + 1..])
  }

  function Leading(s: string): (n: nat)
    ensures n <= |s| && (forall j | 0 <= j < n :: s[j] == '=') && (n < |s| ==> s[n] != '=')
  {
    if s != "" && s[0] == '=' then 1 + Leading(s[1..]) else 0
  }

  /** Drop leading equals signs, cut at the first one left, and keep the pair when both sides are non-empty. */
  function ParseSegment(segment: string): Option<(string, string)> {
    var t := segment[Leading(segment)..];
    var e := IndexOf(t, '=');
    if e == |t| || e + 1 == |t| then None else Some((t[..e], t[e + 1..]))
  }

  function Filed(segment: string, dest: ConnMap): ConnMap {
    match ParseSegment(segment)
    case Some(pair) => dest[Upper(pair.0) := pair.1]
    case None => dest
  }

  function Collected(segments: seq<string>, dest: ConnMap): ConnMap
    decreases |segments|
  {
    if segments == [] then dest else Collected(segments[1..], Filed(segments[0], dest))
  }

  function Parse(s: string): ConnMap {
    Collected(Segments(s), map[])
  }

  // ---- the two agree ----

  lemma {:induction false} ShiftedKeyEnd(s: string, n: nat, i: nat)
    requires n + i <= |s|
    ensures KeyEnd(s, n + i) == n + KeyEnd(s[n..], i)
    decreases |s| - i
  {
    if n + i < |s| && s[n + i] != '=' && s[n + i] != ';' {
      ShiftedKeyEnd(s, n, i + 1);
    }
  }

  lemma {:induction false} ShiftedValueEnd(s: string, n: nat, i: nat)
    requires n + i <= |s|
    ensures ValueEnd(s, n + i) == n + ValueEnd(s[n..], i)
    decreases |s| - i
  {
    if n + i < |s| && s[n + i] != ';' {
      ShiftedValueEnd(s, n, i + 1);
    }
  }

  lemma {:induction false} ShiftedSearch(s: string, n: nat, i: nat)
    requires n + i <= |s|
    ensures match Search(s[n..], i)
            case None => Search(s, n + i) == None
            case Some(m) => Search(s, n + i) == Some(Match(n + m.start, n + m.equals, n + m.end))
    decreases |s| - i
  {
    ShiftedKeyEnd(s, n, i);
    if MatchAt(s, n + i) {
      ShiftedValueEnd(s, n, KeyEnd(s[n..], i) + 1);
    } else if n + i < |s| {
      ShiftedSearch(s, n, i + 1);
    }
  }

  lemma {:induction false} SkippedSearch(s: string, i: nat, n: nat)
    requires i <= n <= |s| && forall j | i <= j < n :: !MatchAt(s, j)
    ensures Search(s, i) == Search(s, n)
    decreases n - i
  {
    if i < n {
      SkippedSearch(s, i + 1, n);
    }
  }

  lemma ScannedStep(s: string, dest: ConnMap)
    ensures match Search(s, 0)
            case None => Scanned(s, dest) == dest
            case Some(m) =>
              && Matches(s, m)
              && Scanned(s, dest) == Scanned(s[m.end..], dest[Upper(s[m.start..m.equals]) := s[m.equals + 1..m.end]])
  {
    SearchSound(s, 0);
    hide Search, Upper;
  }

  /** A prefix in which no match starts does not matter. */
  lemma SkipPrefix(s: string, n: nat, dest: ConnMap)
    requires n <= |s| && forall j | 0 <= j < n :: !MatchAt(s, j)
    ensures Scanned(s, dest) == Scanned(s[n..], dest)
  {
    hide Scanned, Search, MatchAt, Upper;
    SkippedSearch(s, 0, n);
    ShiftedSearch(s, n, 0);
    ScannedStep(s, dest);
    ScannedStep(s[n..], dest);
    if Search(s[n..], 0).Some? {
      var m := Search(s[n..], 0).value;
      SliceOfSuffix(s, n, m.start, m.equals);
      SliceOfSuffix(s, n, m.equals + 1, m.end);
      SliceOfSuffix(s, n, m.end, |s| - n);
      assert s[n + m.end..] == s[n + m.end..|s|] && s[n..][m.end..] == s[n..][m.end..|s| - n];
    }
  }

  lemma SliceOfSuffix(s: string, n: nat, i: nat, j: nat)
    requires n <= |s| && i <= j <= |s| - n
    ensures s[n..][i..j] == s[n + i..n + j]
  {
  }

  lemma FirstSegment(s: string)
    ensures var n := IndexOf(s, ';');
            && (n == |s| ==> Segments(s) == [s])
            && (n < |s| ==> Segments(s) == [s[..n]] + Segments(s[n + 1..]))
  {
    hide IndexOf;
  }

  lemma {:induction false} KeyEndIs(s: string, i: nat, e: nat)
    requires i <= e <= |s| && (forall j | i <= j < e :: s[j] != '=' && s[j] != ';')
    requires e == |s| || s[e] == '=' || s[e] == ';'
    ensures KeyEnd(s, i) == e
    decreases e - i
  {
    if i < e {
      KeyEndIs(s, i + 1, e);
    }
  }

  lemma {:induction false} ValueEndIs(s: string, i: nat, e: nat)
    requires i <= e <= |s| && (forall j | i <= j < e :: s[j] != ';') && (e == |s| || s[e] == ';')
    ensures ValueEnd(s, i) == e
    decreases e - i
  {
    if i < e {
      ValueEndIs(s, i + 1, e);
    }
  }

  /** `d` leading equals signs, the next one at `e` or at the end `n` of the first segment. */
  ghost predicate Layout(s: string, d: nat, e: nat, n: nat) {
    && d <= e <= n <= |s|
    && (forall j | 0 <= j < d :: s[j] == '=')
    && (forall j | d <= j < e :: s[j] != '=')
    && (forall j | 0 <= j < n :: s[j] != ';')
    && (e < n ==> d < e && s[e] == '=')
    && (n < |s| ==> s[n] == ';')
  }

  /** A suffix of a prefix, with `d` leading equals signs and the next one `k` places on. */
  lemma LayoutOf(s: string, n: nat, d: nat, k: nat)
    requires d <= n <= |s| && (forall j | 0 <= j < n :: s[j] != ';') && (n < |s| ==> s[n] == ';')
    requires (forall j | 0 <= j < d :: s[..n][j] == '=') && (d < n ==> s[..n][d] != '=')
    requires var t := s[..n][d..];
             k <= |t| && (forall j | 0 <= j < k :: t[j] != '=') && (k < |t| ==> t[k] == '=')
    ensures Layout(s, d, d + k, n)
  {
    forall j | 0 <= j < d ensures s[j] == '=' {
      assert s[j] == s[..n][j];
    }
    forall j | d <= j < d + k ensures s[j] != '=' {
      assert s[j] == s[..n][d..][j - d];
    }
  }

  lemma SegmentLayout(s: string)
    ensures var n := IndexOf(s, ';');
            var d := Leading(s[..n]);
            Layout(s, d, d + IndexOf(s[..n][d..], '='), n)
  {
    hide Leading, IndexOf, Layout;
    var n := IndexOf(s, ';');
    var d := Leading(s[..n]);
    LayoutOf(s, n, d, IndexOf(s[..n][d..], '='));
  }

  lemma SlicesOf(s: string, n: nat, d: nat, k: nat)
    requires d + k <= n <= |s|
    ensures s[..n][d..][..k] == s[d..d + k]
    ensures d + k < n ==> s[..n][d..][k + 1..] == s[d + k + 1..n]
  {
  }

  lemma SegmentParse(s: string)
    ensures var n := IndexOf(s, ';');
            var d := Leading(s[..n]);
            var e := d + IndexOf(s[..n][d..], '=');
            d <= e <= n && ParseSegment(s[..n]) == if e >= n - 1 then None else Some((s[d..e], s[e + 1..n]))
  {
    hide Leading, IndexOf;
    var n := IndexOf(s, ';');
    var d := Leading(s[..n]);
    SlicesOf(s, n, d, IndexOf(s[..n][d..], '='));
  }

  lemma NoMatchIn(s: string, d: nat, e: nat, n: nat)
    requires Layout(s, d, e, n)
    ensures forall j | 0 <= j < d :: !MatchAt(s, j)
    ensures e >= n - 1 ==> forall j | 0 <= j < n :: !MatchAt(s, j)
    ensures e < n - 1 ==> MatchAt(s, d) && KeyEnd(s, d) == e && ValueEnd(s, e + 1) == n
  {
    forall j | 0 <= j < d ensures !MatchAt(s, j) {
      KeyEndIs(s, j, j);
    }
    if e >= n - 1 {
      forall j | d <= j < n ensures !MatchAt(s, j) {
        if j <= e {
          KeyEndIs(s, j, e);
        }
      }
    } else {
      KeyEndIs(s, d, e);
      ValueEndIs(s, e + 1, n);
    }
  }

  /** The loop consumes the first segment and files its pair, if it has one. */
  lemma ScannedSegment(s: string, dest: ConnMap)
    ensures var n := IndexOf(s, ';');
            Scanned(s, dest) == Scanned(s[n..], Filed(s[..n], dest))
  {
    SegmentLayout(s);
    SegmentParse(s);
    hide Scanned, Search, Upper, MatchAt, KeyEnd, ValueEnd, ParseSegment, Leading;
    var n := IndexOf(s, ';');
    var d := Leading(s[..n]);
    var e := d + IndexOf(s[..n][d..], '=');
    NoMatchIn(s, d, e, n);
    if e >= n - 1 {
      SkipPrefix(s, n, dest);
    } else {
      SkippedSearch(s, 0, d);
      SearchHere(s, d);
      ScannedStep(s, dest);
    }
  }

  lemma SearchHere(s: string, d: nat)
    requires d <= |s| && MatchAt(s, d)
    ensures Search(s, d) == Some(Match(d, KeyEnd(s, d), ValueEnd(s, KeyEnd(s, d) + 1)))
  {
  }

  /** The search loop computes what splitting on semicolons computes. */
  lemma {:induction false} ScanningIsSplitting(s: string, dest: ConnMap)
    ensures Scanned(s, dest) == Collected(Segments(s), dest)
    decreases |s|
  {
    ScannedSegment(s, dest);
    FirstSegment(s);
    hide Scanned, Filed;
    var n := IndexOf(s, ';');
    var dest1 := Filed(s[..n], dest);
    var segments := Segments(s);
    assert segments[0] == s[..n];
    if n < |s| {
      SkipSemicolon(s, n, dest1);
      ScanningIsSplitting(s[n + 1..], dest1);
      assert segments[1..] == Segments(s[n + 1..]);
    } else {
      ScannedNothing(s[n..], dest1);
      assert segments[1..] == [];
    }
  }

  lemma SkipSemicolon(s: string, n: nat, dest: ConnMap)
    requires n < |s| && s[n] == ';'
    ensures Scanned(s[n..], dest) == Scanned(s[n + 1..], dest)
  {
    assert s[n..][1..] == s[n + 1..];
    SkipPrefix(s[n..], 1, dest);
  }

  lemma ScannedNothing(s: string, dest: ConnMap)
    requires s == ""
    ensures Scanned(s, dest) == dest
  {
  }

  /** `ParseConnectionString`. */
  method ParseConnectionString(connectionString: string, dest: ConnMap) returns (r: ConnMap)
    ensures r == Collected(Segments(connectionString), dest)
  {
    hide Search, Upper, Scanned, Collected, Segments;
    ScanningIsSplitting(connectionString, dest);
    r := dest;
    var connStr := connectionString;
    var found := Search(connStr, 0);
    while found.Some?
      invariant found == Search(connStr, 0)
      invariant Scanned(connStr, r) == Scanned(connectionString, dest)
      decreases |connStr|
    {
      ScannedStep(connStr, r);
      var m := found.value;
      var key := Upper(connStr[m.start..m.equals]);
      var val := connStr[m.equals + 1..m.end];
      r := r[key := val];
      connStr := connStr[m.end..];
      found := Search(connStr, 0);
    }
    ScannedStep(connStr, r);
  }

  // ---- building ----

  function Entry(key: string, value: string): string {
    key + ['='] + value
  }

  /** The text for the given keys, in that order. */
  function Built(m: ConnMap, keys: seq<string>): string
    requires forall k | k in keys :: k in m
  {
    if keys == [] then ""
    else if |keys| == 1 then Entry(keys[0], m[keys[0]])
    else Entry(keys[0], m[keys[0]]) + [';'] + Built(m, keys[1..])
  }

  /** The order in which `std::map` iterates. */
  ghost predicate Ascending(keys: seq<string>) {
    forall i, j | 0 <= i < j < |keys| :: Less(keys[i], keys[j])
  }

  ghost predicate KeysInOrder(m: ConnMap, keys: seq<string>) {
    Ascending(keys) && (forall k :: k in keys <==> k in m)
  }

  /** The text lists the entries of the map in key order. */
  ghost predicate Prints(m: ConnMap, text: string) {
    exists keys :: KeysInOrder(m, keys) && text == Built(m, keys)
  }

  lemma {:induction false} AscendingIsForced(a: seq<string>, b: seq<string>)
    requires Ascending(a) && Ascending(b) && forall k :: k in a <==> k in b
    ensures a == b
    decreases |a|
  {
    if a == [] {
      assert forall i | 0 <= i < |b| :: b[i] in b;
    } else {
      HeadIsForced(a, b);
      assert a == [a[0]] + a[1..] && b == [b[0]] + b[1..];
      forall k ensures k in a[1..] <==> k in b[1..] {
        LessIrreflexive(a[0]);
        assert k in a <==> k == a[0] || k in a[1..];
        assert k in b <==> k == b[0] || k in b[1..];
      }
      AscendingIsForced(a[1..], b[1..]);
    }
  }

  lemma HeadIsForced(a: seq<string>, b: seq<string>)
    requires Ascending(a) && Ascending(b) && a != [] && forall k :: k in a <==> k in b
    ensures b != [] && a[0] == b[0]
    ensures a[0] !in a[1..] && b[0] !in b[1..]
  {
    LessIrreflexive(a[0]);
    assert a[0] in b;
    LessIrreflexive(b[0]);
    if a[0] != b[0] {
      assert b[0] in a;
      LessTransitive(a[0], b[0], a[0]);
    }
  }

  /** A map has one printed form. */
  lemma PrintedOnce(m: ConnMap, a: string, b: string)
    requires Prints(m, a) && Prints(m, b)
    ensures a == b
  {
    var keys :| KeysInOrder(m, keys) && a == Built(m, keys);
    var others :| KeysInOrder(m, others) && b == Built(m, others);
    AscendingIsForced(keys, others);
  }

  method LeastKey(keys: set<string>) returns (least: string)
    requires keys != {}
    ensures least in keys && forall k | k in keys && k != least :: Less(least, k)
  {
    least :| least in keys;
    var rest := keys - {least};
    while rest != {}
      invariant least in keys && rest <= keys
      invariant forall k | k in keys && k !in rest && k != least :: Less(least, k)
      decreases |rest|
    {
      var k :| k in rest;
      rest := rest - {k};
      if Less(k, least) {
        forall j | j in keys && j !in rest && j != k ensures Less(k, j) {
          if j != least {
            LessTransitive(k, least, j);
          }
        }
        least := k;
      } else {
        LessTotal(k, least);
      }
    }
  }

  /** `BuildConnectionString`. */
  method BuildConnectionString(m: ConnMap) returns (text: string)
    ensures Prints(m, text)
  {
    text := "";
    ghost var keys: seq<string> := [];
    var rest := m.Keys;
    while rest != {}
      invariant rest <= m.Keys && (forall k :: k in keys <==> k in m && k !in rest)
      invariant Ascending(keys) && (forall i, k | 0 <= i < |keys| && k in rest :: Less(keys[i], k))
      invariant text == Built(m, keys) && (text == "" <==> keys == [])
      decreases |rest|
    {
      var k := LeastKey(rest);
      rest := rest - {k};
      BuiltMore(m, keys, k);
      if |text| > 0 {
        text := text + [';'];
      }
      text := text + Entry(k, m[k]);
      keys := keys + [k];
    }
  }

  lemma {:induction false} BuiltMore(m: ConnMap, keys: seq<string>, k: string)
    requires k in m && forall j | j in keys :: j in m
    ensures Built(m, keys + [k]) == if keys == [] then Entry(k, m[k]) else Built(m, keys) + [';'] + Entry(k, m[k])
  {
    if keys != [] {
      BuiltMore(m, keys[1..], k);
      assert (keys + [k])[1..] == keys[1..] + [k];
    }
  }

  // ---- parsing undoes building ----

  predicate PlainKey(k: string) {
    k != "" && ';' !in k && '=' !in k
  }

  /** A plain key in capitals. */
  predicate CleanKey(k: string) {
    PlainKey(k) && forall i | 0 <= i < |k| :: !('a' <= k[i] <= 'z')
  }

  predicate CleanMap(m: ConnMap) {
    forall k | k in m :: CleanKey(k) && ';' !in m[k]
  }

  function NonEmpty(m: ConnMap): ConnMap {
    map k | k in m && m[k] != "" :: m[k]
  }

  lemma EntryParses(key: string, value: string)
    requires key != "" && '=' !in key
    ensures ParseSegment(Entry(key, value)) == if value == "" then None else Some((key, value))
  {
    var s := Entry(key, value);
    assert s[0] == key[0] && key[0] in key;
    assert s[Leading(s)..] == s;
    IndexOfPrefix(key, '=', value);
    assert s[..|key|] == key && s[|key| + 1..] == value;
  }

  lemma SegmentsSplit(a: string, b: string)
    requires ';' !in a
    ensures Segments(a + [';'] + b) == [a] + Segments(b) && Segments(a) == [a]
  {
    IndexOfPrefix(a, ';', b);
    var s := a + [';'] + b;
    assert s[..|a|] == a && s[|a| + 1..] == b;
  }

  lemma {:induction false} CapitalsStay(s: string)
    requires forall i | 0 <= i < |s| :: !('a' <= s[i] <= 'z')
    ensures Upper(s) == s
  {
    if s != "" {
      CapitalsStay(s[1..]);
    }
  }

  /** `large` is `small` with every small letter replaced by its capital and every other character kept. */
  ghost predicate Capitals(large: string, small: string) {
    && |large| == |small|
    && forall i | 0 <= i < |small| ::
         if 'a' <= small[i] <= 'z' then large[i] as int - 'A' as int == small[i] as int - 'a' as int
         else large[i] == small[i]
  }

  /** There is one way to write a text in capitals. */
  lemma {:induction false} CapitalsAreUpper(large: string, small: string)
    requires Capitals(large, small)
    ensures Upper(small) == large
  {
    if small != "" {
      assert forall i | 0 <= i < |small| - 1 :: small[1..][i] == small[i + 1] && large[1..][i] == large[i + 1];
      CapitalsAreUpper(large[1..], small[1..]);
      assert ('a' <= small[0] <= 'z') ==> UpperChar(small[0]) as int - 'A' as int == small[0] as int - 'a' as int;
      assert large == [large[0]] + large[1..];
    }
  }

  /** One pair is filed under its key in capitals, and nothing else is. */
  lemma OnePairFiled(key: string, value: string) returns (large: string)
    requires PlainKey(key) && ';' !in value && value != ""
    ensures Capitals(large, key) && Parse(key + ['='] + value) == map[large := value]
  {
    large := Upper(key);
    EntryParses(key, value);
    var s := key + ['='] + value;
    assert s == Entry(key, value) && IndexOf(s, ';') == |s|;
    assert Segments(s) == [s] && [s][1..] == [];
    hide Upper, ParseSegment, Segments;
    assert Collected([s], map[]) == Filed(s, map[]);
  }

  /** No key that was parsed holds a small letter. */
  lemma ParsedInCapitals(s: string)
    ensures forall k, i | k in Parse(s) && 0 <= i < |k| :: !('a' <= k[i] <= 'z')
  {
    ParsedClean(s);
  }

  /** The segment is about `key`, whatever the case it is written in. */
  ghost predicate Gives(segment: string, key: string) {
    ParseSegment(segment).Some? && Capitals(key, ParseSegment(segment).value.0)
  }

  /** Of the segments about one key the last one decides. */
  lemma {:induction false} LastDecides(segments: seq<string>, dest: ConnMap, key: string, i: nat)
    requires i < |segments| && Gives(segments[i], key) && forall j | i < j < |segments| :: !Gives(segments[j], key)
    ensures key in Collected(segments, dest)
    ensures Collected(segments, dest)[key] == ParseSegment(segments[i]).value.1
    decreases |segments|
  {
    hide ParseSegment, Upper, Gives;
    var next := Filed(segments[0], dest);
    if i == 0 {
      GivenFiled(segments[0], dest, key);
      OthersStay(segments[1..], next, key);
    } else {
      LastDecides(segments[1..], next, key, i - 1);
    }
  }

  /** A key that no segment is about keeps what was filed under it before. */
  lemma {:induction false} OthersStay(segments: seq<string>, dest: ConnMap, key: string)
    requires forall j | 0 <= j < |segments| :: !Gives(segments[j], key)
    ensures key in Collected(segments, dest) <==> key in dest
    ensures key in dest ==> Collected(segments, dest)[key] == dest[key]
    decreases |segments|
  {
    hide ParseSegment, Upper, Gives;
    if segments != [] {
      GivenFiled(segments[0], dest, key);
      OthersStay(segments[1..], Filed(segments[0], dest), key);
    }
  }

  lemma GivenFiled(segment: string, dest: ConnMap, key: string)
    ensures var filed := Filed(segment, dest);
            if Gives(segment, key) then key in filed && filed[key] == ParseSegment(segment).value.1
            else (key in filed <==> key in dest) && (key in dest ==> filed[key] == dest[key])
  {
    hide ParseSegment, Upper;
    if ParseSegment(segment).Some? {
      var small := ParseSegment(segment).value.0;
      assert Capitals(Upper(small), small);
      if Capitals(key, small) {
        CapitalsAreUpper(key, small);
      }
    }
  }

  lemma EntryFiled(key: string, value: string, dest: ConnMap)
    requires CleanKey(key) && ';' !in value
    ensures ';' !in Entry(key, value)
    ensures Filed(Entry(key, value), dest) == if value == "" then dest else dest[key := value]
  {
    EntryParses(key, value);
    CapitalsStay(key);
  }

  lemma BuiltSegments(m: ConnMap, keys: seq<string>)
    requires keys != [] && (forall k | k in keys :: k in m) && ';' !in Entry(keys[0], m[keys[0]])
    ensures Segments(Built(m, keys)) ==
            [Entry(keys[0], m[keys[0]])] + if |keys| == 1 then [] else Segments(Built(m, keys[1..]))
  {
    hide Segments, Entry;
    SegmentsSplit(Entry(keys[0], m[keys[0]]), if |keys| == 1 then "" else Built(m, keys[1..]));
  }

  /** The exact text: split at the semicolons, it has one piece for every key, in order, and no other. */
  lemma {:induction false} BuiltPieces(m: ConnMap, keys: seq<string>)
    requires CleanMap(m) && keys != [] && (forall k | k in keys :: k in m)
    ensures var pieces := Segments(Built(m, keys));
            |pieces| == |keys| && forall i | 0 <= i < |keys| :: pieces[i] == keys[i] + ['='] + m[keys[i]]
    decreases |keys|
  {
    EntryFiled(keys[0], m[keys[0]], map[]);
    BuiltSegments(m, keys);
    if |keys| > 1 {
      hide Segments, Built;
      BuiltPieces(m, keys[1..]);
    }
  }

  function Kept(m: ConnMap, keys: seq<string>): ConnMap {
    map k | k in keys && k in m && m[k] != "" :: m[k]
  }

  lemma KeptStep(m: ConnMap, keys: seq<string>, dest: ConnMap)
    requires keys != [] && keys[0] in m
    ensures var k := keys[0];
            dest + Kept(m, keys) == (if m[k] == "" then dest else dest[k := m[k]]) + Kept(m, keys[1..])
  {
    assert forall j :: j in keys <==> j == keys[0] || j in keys[1..];
  }

  lemma {:induction false} BuiltCollects(m: ConnMap, keys: seq<string>, dest: ConnMap)
    requires CleanMap(m) && keys != [] && (forall k | k in keys :: k in m)
    ensures Collected(Segments(Built(m, keys)), dest) == dest + Kept(m, keys)
    decreases |keys|
  {
    var k, rest := keys[0], keys[1..];
    EntryFiled(k, m[k], dest);
    BuiltSegments(m, keys);
    KeptStep(m, keys, dest);
    hide Segments, Entry, Built, Filed, Kept;
    var segments := Segments(Built(m, keys));
    var dest1 := Filed(Entry(k, m[k]), dest);
    if rest == [] {
      assert segments[1..] == [];
      KeptNothing(m, rest, dest1);
    } else {
      assert segments[1..] == Segments(Built(m, rest));
      BuiltCollects(m, rest, dest1);
    }
  }

  lemma KeptNothing(m: ConnMap, keys: seq<string>, dest: ConnMap)
    requires keys == []
    ensures dest + Kept(m, keys) == dest
  {
  }

  /** Parsing a built string gives the map back without its empty values, in whatever order it was built. */
  lemma BuildThenParse(m: ConnMap, keys: seq<string>)
    requires CleanMap(m) && forall k :: k in keys <==> k in m
    ensures Parse(Built(m, keys)) == NonEmpty(m)
  {
    assert map[] + Kept(m, keys) == NonEmpty(m);
    if keys != [] {
      BuiltCollects(m, keys, map[]);
    } else {
      assert Segments("") == [""] && ParseSegment("") == None;
    }
  }

  /** Parsing what `BuildConnectionString` prints restores the map but for its empty values. */
  lemma PrintThenParse(m: ConnMap, text: string)
    requires CleanMap(m) && Prints(m, text)
    ensures Parse(text) == NonEmpty(m)
  {
    hide Parse, Built, CleanMap, NonEmpty;
    var keys :| KeysInOrder(m, keys) && text == Built(m, keys);
    BuildThenParse(m, keys);
  }

  /** Both sides of a pair are non-empty and hold no semicolon, and the key no equals sign. */
  lemma PairClean(segment: string)
    requires ';' !in segment && ParseSegment(segment).Some?
    ensures var (key, val) := ParseSegment(segment).value;
            CleanKey(Upper(key)) && ';' !in val && val != ""
  {
    hide Upper, IndexOf, Leading;
    var (key, val) := ParseSegment(segment).value;
    assert forall i | 0 <= i < |val| :: val[i] in segment;
    assert forall i | 0 <= i < |key| :: key[i] in segment && key[i] != '=';
  }

  lemma FiledClean(segment: string, dest: ConnMap)
    requires ';' !in segment && CleanMap(dest) && NonEmpty(dest) == dest
    ensures CleanMap(Filed(segment, dest)) && NonEmpty(Filed(segment, dest)) == Filed(segment, dest)
  {
    hide Upper, ParseSegment, CleanKey;
    if ParseSegment(segment).Some? {
      PairClean(segment);
      assert forall k | k in dest :: dest[k] != "";
    }
  }

  lemma {:induction false} CollectedClean(segments: seq<string>, dest: ConnMap)
    requires (forall s | s in segments :: ';' !in s) && CleanMap(dest) && NonEmpty(dest) == dest
    ensures var m := Collected(segments, dest); CleanMap(m) && NonEmpty(m) == m
    decreases |segments|
  {
    if segments != [] {
      FiledClean(segments[0], dest);
      CollectedClean(segments[1..], Filed(segments[0], dest));
    }
  }

  lemma {:induction false} SegmentsClean(s: string)
    ensures forall seg | seg in Segments(s) :: ';' !in seg
    decreases |s|
  {
    var i := IndexOf(s, ';');
    if i < |s| {
      SegmentsClean(s[i + 1..]);
    }
  }

  lemma ParsedClean(s: string)
    ensures CleanMap(Parse(s)) && NonEmpty(Parse(s)) == Parse(s)
  {
    SegmentsClean(s);
    CollectedClean(Segments(s), map[]);
  }

  /** Whatever is parsed is clean, so building and parsing it again changes nothing. */
  lemma ParseBuildParse(s: string, text: string)
    requires Prints(Parse(s), text)
    ensures Parse(text) == Parse(s)
  {
    ParsedClean(s);
    PrintThenParse(Parse(s), text);
  }

  // ---- the monitor's use of it ----

  const SERVER_HOST_KEY: string := "SERVER"
  const ENABLE_FAILOVER_KEY: string := "ENABLECLUSTERFAILOVER"
  const BOOL_FALSE: string := "0"
  const BOOL_TRUE: string := "1"

  function Redirected(m: ConnMap, host: string): ConnMap {
    var m1 := if SERVER_HOST_KEY in m then m[SERVER_HOST_KEY := host] else m;
    if ENABLE_FAILOVER_KEY in m1 then m1[ENABLE_FAILOVER_KEY := BOOL_FALSE] else m1
  }

  /** `ClusterTopologyMonitor::ConnForHost`. */
  method ConnForHost(connStr: string, newHost: string) returns (text: string)
    ensures Prints(Redirected(Parse(connStr), newHost), text)
  {
    var connMap := ParseConnectionString(connStr, map[]);
    if SERVER_HOST_KEY in connMap {
      connMap := connMap[SERVER_HOST_KEY := newHost];
    }
    if ENABLE_FAILOVER_KEY in connMap {
      connMap := connMap[ENABLE_FAILOVER_KEY := BOOL_FALSE];
    }
    text := BuildConnectionString(connMap);
  }

  /** The settings differ in the server, if one was given, and in failover being off, if it was mentioned; an empty
      host name leaves no server at all. */
  ghost predicate OnlyRedirected(before: ConnMap, after: ConnMap, host: string) {
    && (SERVER_HOST_KEY in after <==> SERVER_HOST_KEY in before && host != "")
    && (SERVER_HOST_KEY in after ==> after[SERVER_HOST_KEY] == host)
    && (ENABLE_FAILOVER_KEY in after <==> ENABLE_FAILOVER_KEY in before)
    && (ENABLE_FAILOVER_KEY in after ==> after[ENABLE_FAILOVER_KEY] == BOOL_FALSE)
    && (forall k | k != SERVER_HOST_KEY && k != ENABLE_FAILOVER_KEY ::
          (k in after <==> k in before) && (k in after ==> after[k] == before[k]))
  }

  /** What a node's connection string says, compared with the monitor's. */
  lemma RedirectedParses(connStr: string, host: string, text: string)
    requires ';' !in host && Prints(Redirected(Parse(connStr), host), text)
    ensures OnlyRedirected(Parse(connStr), Parse(text), host)
  {
    ParsedClean(connStr);
    var before := Parse(connStr);
    RedirectedClean(before, host);
    hide *;
    PrintThenParse(Redirected(before, host), text);
    RedirectedNonEmpty(before, host);
  }

  lemma RedirectedNonEmpty(before: ConnMap, host: string)
    requires NonEmpty(before) == before
    ensures OnlyRedirected(before, NonEmpty(Redirected(before, host)), host)
  {
    assert SERVER_HOST_KEY[0] != ENABLE_FAILOVER_KEY[0] && |BOOL_FALSE| == 1;
    assert forall k | k in before :: k in NonEmpty(before);
  }

  lemma RedirectedClean(m: ConnMap, host: string)
    requires CleanMap(m) && ';' !in host
    ensures CleanMap(Redirected(m, host))
  {
    hide CleanKey;
    assert BOOL_FALSE == ['0'];
  }
}
