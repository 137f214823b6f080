/** The weight text of src/host_selector/round_robin_host_selector.cc: printed by `SetRoundRobinWeight`
    as "name:weight,name:weight", read back by `update_props_host_weight`. */
module RoundRobinWeights {
  import opened Basics
  import opened Hosts

  const HOST_WEIGHT_KEY: string := "round_robin_host_weight_pairs"
  const DEFAULT_WEIGHT_KEY: string := "round_robin_default_weight"
  const DEFAULT_WEIGHT: int := 1
  const INT_MAX: int := 0x7FFF_FFFF
  const INT_MIN: int := -0x8000_0000

  type Props = map<string, string>

  // ---- std::getline with a delimiter ----

  /** The lines a `getline` loop reads: a delimiter at the very end opens no further line. */
  function Lines(s: string, d: char): seq<string>
    decreases |s|
  {
    if s == "" then []
    else if IndexOf(s, d) == |s| then [s]
    else [s[..IndexOf(s, d)]] + Lines(s[IndexOf(s, d) + 1..], d)
  }

  function Joined(lines: seq<string>, d: char): string {
    if lines == [] then ""
    else if |lines| == 1 then lines[0]
    else lines[0] + [d] + Joined(lines[1..], d)
  }

  /** One delimiter at the end is dropped. */
  function Trailing(s: string, d: char): string {
    if s != "" && s[|s| - 1] == d then [d] else ""
  }

  lemma LinesSplit(s: string, d: char) returns (first: string, rest: string)
    requires d in s
    ensures s == first + [d] + rest && d !in first && |rest| < |s|
    ensures Lines(s, d) == [first] + Lines(rest, d)
    ensures Trailing(s, d) == if rest == "" then [d] else Trailing(rest, d)
  {
    var i := IndexOf(s, d);
    first, rest := s[..i], s[i + 1..];
    assert s == first + [d] + rest;
    hide IndexOf;
  }

  lemma NoSplit(s: string, d: char)
    requires d !in s
    ensures Lines(s, d) == (if s == "" then [] else [s]) && Trailing(s, d) == ""
  {
    assert IndexOf(s, d) == |s|;
  }

  /** The lines hold no delimiter; joined, they give the text back but for one delimiter at its end. */
  lemma {:induction false} LinesMean(s: string, d: char)
    ensures Lines(s, d) == [] <==> s == ""
    ensures forall l | l in Lines(s, d) :: d !in l
    ensures s == Joined(Lines(s, d), d) + Trailing(s, d)
    decreases |s|
  {
    hide Lines, Trailing, IndexOf;
    if d !in s {
      NoSplit(s, d);
      assert s + "" == s;
    } else {
      var first, rest := LinesSplit(s, d);
      var lines := Lines(rest, d);
      LinesMean(rest, d);
      JoinedFirst(first, lines, d);
      if rest == "" {
        assert first + [d] + "" == first + [d];
      } else {
        Associative(first + [d], Joined(lines, d), Trailing(rest, d));
      }
    }
  }

  lemma JoinedFirst(first: string, lines: seq<string>, d: char)
    ensures Joined([first] + lines, d) == if lines == [] then first else first + [d] + Joined(lines, d)
  {
    assert ([first] + lines)[1..] == lines;
  }

  method ReadLines(s: string, d: char) returns (lines: seq<string>)
    ensures lines == Lines(s, d)
  {
    lines := [];
    var rest := s;
    while rest != ""
      invariant lines + Lines(rest, d) == Lines(s, d)
      decreases |rest|
    {
      var i := IndexOf(rest, d);
      if i == |rest| {
        lines, rest := lines + [rest], "";
      } else {
        lines, rest := lines + [rest[..i]], rest[i + 1..];
      }
    }
  }

  // ---- integers as text ----

  predicate IsDigit(c: char) { '0' <= c <= '9' }

  predicate AllDigits(s: string) {
    forall i | 0 <= i < |s| :: IsDigit(s[i])
  }

  function DigitOf(n: nat): (c: char)
    requires n < 10
    ensures IsDigit(c) && c as int - '0' as int == n
  {
    (n + '0' as int) as char
  }

  /** `std::to_string`. */
  function Decimal(n: nat): (s: string)
    ensures s != "" && AllDigits(s)
  {
    if n < 10 then [DigitOf(n)] else Decimal(n / 10) + [DigitOf(n % 10)]
  }

  function DigitsValue(s: string): nat
    requires AllDigits(s)
  {
    if s == "" then 0
    else
      var last := s[|s| - 1];
      assert IsDigit(last);
      10 * DigitsValue(s[..|s| - 1]) + (last as int - '0' as int)
  }

  lemma {:induction false} DecimalValue(n: nat)
    ensures DigitsValue(Decimal(n)) == n
  {
    if n >= 10 {
      DecimalValue(n / 10);
      assert Decimal(n)[..|Decimal(n)| - 1] == Decimal(n / 10);
    }
  }

  predicate IsSpace(c: char) {
    c == ' ' || '\t' <= c <= '\r'
  }

  function SkipSpaces(s: string): string {
    if s != "" && IsSpace(s[0]) then SkipSpaces(s[1..]) else s
  }

  /** `convert_to_int`: blanks, a sign and digits that fit an `int`, with nothing behind them. */
  function ConvertToInt(s: string): Option<int> {
    var t := SkipSpaces(s);
    var negative := t != "" && t[0] == '-';
    var digits := if t != "" && (t[0] == '-' || t[0] == '+') then t[1..] else t;
    if digits == "" || !AllDigits(digits) then None
    else
      var value: int := if negative then -(DigitsValue(digits) as int) else DigitsValue(digits);
      if INT_MIN <= value <= INT_MAX then Some(value) else None
  }

  /** A printed number is read back exactly when it fits an `int`. */
  lemma ConvertDecimal(n: nat)
    ensures ConvertToInt(Decimal(n)) == if n <= INT_MAX then Some(n) else None
  {
    DecimalValue(n);
    assert IsDigit(Decimal(n)[0]);
  }

  /** The characters the stream skips. */
  predicate Blank(s: string) {
    forall i | 0 <= i < |s| :: s[i] in {' ', '\t', '\n', 11 as char, 12 as char, '\r'}
  }

  function Signed(sign: string, n: nat): int {
    if sign == "-" then -(n as int) else n
  }

  lemma {:induction false} BlanksSkipped(blanks: string, t: string)
    requires Blank(blanks) && (t != "" ==> !IsSpace(t[0]))
    ensures SkipSpaces(blanks + t) == t
  {
    if blanks == "" {
      assert blanks + t == t;
    } else {
      assert blanks[0] in {' ', '\t', '\n', 11 as char, 12 as char, '\r'};
      assert (blanks + t)[1..] == blanks[1..] + t;
      BlanksSkipped(blanks[1..], t);
    }
  }

  /** Blanks, an optional sign and digits are read as the number they write, when it fits an `int`. */
  lemma ConvertReads(blanks: string, sign: string, digits: string)
    requires Blank(blanks) && sign in {"", "+", "-"} && digits != "" && AllDigits(digits)
    ensures var value := Signed(sign, DigitsValue(digits));
            ConvertToInt(blanks + (sign + digits)) == if INT_MIN <= value <= INT_MAX then Some(value) else None
  {
    hide DigitsValue;
    var t := sign + digits;
    assert IsDigit(digits[0]);
    assert t[0] == if sign == "" then digits[0] else sign[0];
    BlanksSkipped(blanks, t);
    assert sign == "" ==> t == digits;
    assert sign != "" ==> t[1..] == digits;
  }

  lemma {:induction false} SkippedIsBlank(s: string) returns (blanks: string)
    ensures Blank(blanks) && s == blanks + SkipSpaces(s)
  {
    if s != "" && IsSpace(s[0]) {
      var rest := SkippedIsBlank(s[1..]);
      blanks := [s[0]] + rest;
      SplitFirst(s);
      Associative([s[0]], rest, SkipSpaces(s[1..]));
      assert s[0] in {' ', '\t', '\n', 11 as char, 12 as char, '\r'};
    } else {
      blanks := "";
      assert "" + s == s;
    }
  }

  /** Nothing else is read. */
  lemma ConvertReadsOnly(s: string) returns (blanks: string, sign: string, digits: string)
    requires ConvertToInt(s).Some?
    ensures Blank(blanks) && sign in {"", "+", "-"} && digits != "" && AllDigits(digits)
    ensures s == blanks + (sign + digits)
  {
    hide DigitsValue;
    blanks := SkippedIsBlank(s);
    var t := SkipSpaces(s);
    if t[0] == '-' || t[0] == '+' {
      sign, digits := [t[0]], t[1..];
    } else {
      sign, digits := "", t;
    }
    assert sign + digits == t;
  }

  // ---- reading weights ----

  /** One "name:weight" group; a colon at its end is tolerated, as `getline` drops it. */
  function ParsePair(group: string): Option<(string, int)> {
    var split := Lines(group, ':');
    if |split| != 2 || split[0] == "" || split[1] == "" then None
    else
      match ConvertToInt(split[1])
      case Some(w) => if w < DEFAULT_WEIGHT then None else Some((split[0], w))
      case None => None
  }

  /** A name and a number of at least 1 with a colon between them are read, with or without a colon behind. */
  lemma PairReads(name: string, text: string, w: int)
    requires name != "" && ':' !in name && text != "" && ':' !in text && ConvertToInt(text) == Some(w)
    ensures var pair := if w >= 1 then Some((name, w)) else None;
            ParsePair(name + [':'] + text) == pair && ParsePair(name + [':'] + (text + [':'])) == pair
  {
    hide ConvertToInt;
    LinesStep(name, ':', text);
    LinesStep(name, ':', text + [':']);
    LinesStep(text, ':', "");
    assert text + [':'] + "" == text + [':'];
  }

  /** Nothing else is read. */
  lemma PairReadsOnly(group: string) returns (name: string, text: string)
    requires ParsePair(group).Some?
    ensures name != "" && ':' !in name && text != "" && ':' !in text
    ensures group == name + [':'] + text || group == name + [':'] + text + [':']
    ensures ConvertToInt(text).Some? && ParsePair(group).value == (name, ConvertToInt(text).value)
  {
    hide ConvertToInt, IndexOf;
    LinesMean(group, ':');
    var lines := Lines(group, ':');
    name, text := lines[0], lines[1];
    assert lines[1..] == [text];
    assert name + [':'] + text + "" == name + [':'] + text;
  }

  /** The weights after reading the groups in order, and whether all of them were accepted.
      A bad group stops the reading; the groups before it have already taken effect. */
  function ReadGroups(weights: map<string, int>, groups: seq<string>): (map<string, int>, bool)
    decreases |groups|
  {
    if groups == [] then (weights, true)
    else
      match ParsePair(groups[0])
      case Some(pair) => ReadGroups(weights[pair.0 := pair.1], groups[1..])
      case None => (weights, false)
  }

  // ---- printing weights ----

  function Print(hosts: seq<HostInfo>): string {
    if hosts == [] then ""
    else Group(hosts[0]) + if |hosts| == 1 then "" else [','] + Print(hosts[1..])
  }

  function Group(h: HostInfo): string {
    h.host + [':'] + Decimal(h.weight)
  }

  /** `SetRoundRobinWeight`. */
  method SetRoundRobinWeight(hosts: seq<HostInfo>, props: Props) returns (r: Props)
    ensures r == props[HOST_WEIGHT_KEY := Print(hosts)]
  {
    var text := "";
    for i := 0 to |hosts|
      invariant text + Print(hosts[i..]) == Print(hosts)
    {
      ghost var before, rest := text, Print(hosts[i + 1..]);
      assert hosts[i..][0] == hosts[i] && hosts[i..][1..] == hosts[i + 1..];
      text := text + hosts[i].host;
      text := text + [':'];
      text := text + Decimal(hosts[i].weight);
      if i < |hosts| - 1 {
        text := text + [','];
        assert before + (Group(hosts[i]) + ([','] + rest)) == text + rest;
      } else {
        assert before + (Group(hosts[i]) + "") == text + rest;
      }
    }
    assert hosts[|hosts|..] == [] && text + "" == text;
    r := props[HOST_WEIGHT_KEY := text];
  }

  // ---- the round trip ----

  predicate CleanName(name: string) {
    name != "" && ':' !in name && ',' !in name
  }

  predicate Accepted(h: HostInfo) {
    DEFAULT_WEIGHT <= h.weight <= INT_MAX
  }

  /** The listed weights, a later host overriding an earlier one of the same name. */
  function WeightsOf(weights: map<string, int>, hosts: seq<HostInfo>): map<string, int>
    decreases |hosts|
  {
    if hosts == [] then weights
    else WeightsOf(weights[hosts[0].host := hosts[0].weight], hosts[1..])
  }

  lemma LinesStep(a: string, d: char, b: string)
    requires d !in a
    ensures Lines(a + [d] + b, d) == [a] + Lines(b, d)
    ensures Lines(a, d) == if a == "" then [] else [a]
  {
    IndexOfPrefix(a, d, b);
    var s := a + [d] + b;
    assert s[..|a|] == a && s[|a| + 1..] == b;
  }

  lemma GroupReadsBack(h: HostInfo)
    requires CleanName(h.host)
    ensures ',' !in Group(h) && Group(h) != ""
    ensures ParsePair(Group(h)) == if Accepted(h) then Some((h.host, h.weight)) else None
  {
    var digits := Decimal(h.weight);
    assert ':' !in digits && ',' !in digits;
    LinesStep(h.host, ':', digits);
    LinesStep(digits, ':', "");
    assert Group(h) == h.host + [':'] + digits;
    ConvertDecimal(h.weight);
  }

  lemma LinesJoin(first: string, d: char, rest: string, s: string)
    requires d !in first && first != ""
    requires s == if rest == "" then first else first + [d] + rest
    ensures Lines(s, d) == [first] + Lines(rest, d)
  {
    LinesStep(first, d, rest);
  }

  lemma PrintLines(hosts: seq<HostInfo>)
    requires hosts != [] && CleanName(hosts[0].host)
    ensures Lines(Print(hosts), ',') == [Group(hosts[0])] + Lines(Print(hosts[1..]), ',')
  {
    var first, rest := Group(hosts[0]), Print(hosts[1..]);
    GroupReadsBack(hosts[0]);
    assert rest == "" <==> |hosts| == 1;
    assert first + "" == first && first + ([','] + rest) == first + [','] + rest;
    LinesJoin(first, ',', rest, Print(hosts));
  }

  /** Reading a printed list restores every name and weight, and succeeds exactly when every weight
      is at least 1 and fits an `int`. */
  lemma {:induction false} WeightTextRoundTrip(weights: map<string, int>, hosts: seq<HostInfo>)
    requires forall h | h in hosts :: CleanName(h.host)
    ensures var (read, ok) := ReadGroups(weights, Lines(Print(hosts), ','));
            && (ok <==> forall h | h in hosts :: Accepted(h))
            && (ok ==> read == WeightsOf(weights, hosts))
    decreases |hosts|
  {
    if hosts != [] {
      var h, rest := hosts[0], hosts[1..];
      GroupReadsBack(h);
      PrintLines(hosts);
      assert forall x | x in hosts :: x == h || x in rest;
      if Accepted(h) {
        WeightTextRoundTrip(weights[h.host := h.weight], rest);
      }
    }
  }

  /** The groups before a bad one have taken effect, nothing after it does. */
  lemma {:induction false} BadGroupStops(weights: map<string, int>, good: seq<HostInfo>, bad: string, rest: seq<string>)
    requires (forall h | h in good :: CleanName(h.host) && Accepted(h)) && ParsePair(bad).None?
    ensures ReadGroups(weights, Lines(Print(good), ',') + [bad] + rest) == (WeightsOf(weights, good), false)
    decreases |good|
  {
    if good == [] {
      assert Lines("", ',') + [bad] + rest == [bad] + rest;
    } else {
      var h, more := good[0], good[1..];
      GroupReadsBack(h);
      PrintLines(good);
      hide Print, Lines, ParsePair, Group, IndexOf;
      var tail := Lines(Print(more), ',');
      Associative([Group(h)], tail, [bad]);
      Associative([Group(h)], tail + [bad], rest);
      BadGroupStops(weights[h.host := h.weight], more, bad, rest);
      ReadFirst(weights, Group(h), tail + [bad] + rest);
    }
  }

  lemma ReadFirst(weights: map<string, int>, group: string, groups: seq<string>)
    requires ParsePair(group).Some?
    ensures var (name, w) := ParsePair(group).value;
            ReadGroups(weights, [group] + groups) == ReadGroups(weights[name := w], groups)
  {
    hide ParsePair;
    assert ([group] + groups)[1..] == groups;
  }

  /** No printed list ends in a comma. */
  lemma {:induction false} PrintEnds(hosts: seq<HostInfo>)
    requires hosts != []
    ensures Print(hosts) != "" && IsDigit(Print(hosts)[|Print(hosts)| - 1])
  {
    var digits := Decimal(hosts[0].weight);
    assert IsDigit(digits[|digits| - 1]);
    if |hosts| > 1 {
      PrintEnds(hosts[1..]);
    }
  }

  /** The rebuilt map gives every host the weight of its last listing, and nothing else. */
  lemma {:induction false} WeightsOfLast(weights: map<string, int>, hosts: seq<HostInfo>, i: nat)
    requires i < |hosts| && forall j | i < j < |hosts| :: hosts[j].host != hosts[i].host
    ensures WeightsOf(weights, hosts).Keys == weights.Keys + Names(hosts)
    ensures WeightsOf(weights, hosts)[hosts[i].host] == hosts[i].weight
    decreases |hosts|
  {
    WeightsOfKeys(weights, hosts);
    var next := weights[hosts[0].host := hosts[0].weight];
    if i == 0 {
      WeightsOfOther(next, hosts[1..], hosts[0].host);
    } else {
      WeightsOfLast(next, hosts[1..], i - 1);
    }
  }

  lemma {:induction false} WeightsOfKeys(weights: map<string, int>, hosts: seq<HostInfo>)
    ensures WeightsOf(weights, hosts).Keys == weights.Keys + Names(hosts)
    decreases |hosts|
  {
    if hosts != [] {
      WeightsOfKeys(weights[hosts[0].host := hosts[0].weight], hosts[1..]);
      assert forall x | x in hosts :: x == hosts[0] || x in hosts[1..];
    }
  }

  lemma {:induction false} WeightsOfOther(weights: map<string, int>, hosts: seq<HostInfo>, name: string)
    requires name in weights && forall j | 0 <= j < |hosts| :: hosts[j].host != name
    ensures WeightsOf(weights, hosts).Keys >= {name} && WeightsOf(weights, hosts)[name] == weights[name]
    decreases |hosts|
  {
    if hosts != [] {
      WeightsOfOther(weights[hosts[0].host := hosts[0].weight], hosts[1..], name);
    }
  }
}
