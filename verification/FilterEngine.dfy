/** The rule interpreter of `filters.rs`.

    One pass reads clocks at several points; the readings are inputs: `clock(i)` is the instant at
    which rule `i` consults its rate limiter, `hourAt(i, k)` the UTC hour at which condition `k` of
    rule `i` is evaluated. */
module Filtering {
  import opened Options
  import opened Basics
  import opened Transactions
  import opened StableSort
  import opened RateLimiting
  import opened Unions
  import Numerals

  datatype Condition =
    | ValueRange(minWei: Option<string>, maxWei: Option<string>)
    | GasPriceRange(minGwei: Option<nat>, maxGwei: Option<nat>)
    | TargetTypeIs(types: seq<string>)
    | FunctionSignature(signatures: seq<string>)
    | ContractAddress(addresses: seq<string>, whitelist: bool)
    | SenderAddress(addresses: seq<string>, whitelist: bool)
    | DataSize(minBytes: Option<nat>, maxBytes: Option<nat>)
    | TimeOfDay(startHour: nat, endHour: nat)
    | DataPattern(pattern: string, caseSensitive: bool)

  datatype Action =
    | Accept
    | Reject
    | Tag(tags: seq<string>)
    | SetPriority(level: nat)
    | RateLimit(maxPerSecond: nat)

  datatype Rule = Rule(name: string, enabled: bool, priority: int, conditions: seq<Condition>, action: Action)

  datatype Filtered = Filtered(
    transaction: ParsedTransaction, priority: nat, tags: seq<string>, matchedRules: seq<string>)

  datatype Stats = Stats(totalProcessed: nat, accepted: nat, rejected: nat, rateLimited: nat)

  const NO_STATS: Stats := Stats(0, 0, 0, 0)
  const DEFAULT_PRIORITY: nat := 128
  const ACCEPT_PRIORITY: nat := 255
  const WEI_PER_GWEI: nat := 1_000_000_000

  // ----- conditions

  predicate OccursAt(data: string, pattern: string, i: nat) {
    i + |pattern| <= |data| && data[i..i + |pattern|] == pattern
  }

  predicate Contains(data: string, pattern: string) {
    exists i :: 0 <= i <= |data| - |pattern| && OccursAt(data, pattern, i)
  }

  /** `str::to_lowercase`, whatever it does to letters. */
  type LowerCase = string -> string

  predicate Listed(addresses: seq<string>, address: string, lower: LowerCase) {
    exists k :: 0 <= k < |addresses| && lower(addresses[k]) == lower(address)
  }

  function TypeName(t: TargetType): string {
    match t
    case UniswapV2 => "UniswapV2"
    case UniswapV3 => "UniswapV3"
    case SushiSwap => "SushiSwap"
    case Curve => "Curve"
    case Balancer => "Balancer"
    case OrderBook => "OrderBook"
    case Unknown => "Unknown"
  }

  /** The size of the call data, computed with the wrapping subtraction of a release build: an input
      without even the `0x` prefix counts as enormous. */
  function DataBytes(input: string): nat {
    if |input| / 2 >= 1 then |input| / 2 - 1 else U64_MAX
  }

  predicate Within(x: nat, low: Option<nat>, high: Option<nat>) {
    && (low.Some? ==> low.value <= x)
    && (high.Some? ==> x <= high.value)
  }

  function OrElse<T>(x: Option<T>, default: T): T {
    if x.Some? then x.value else default
  }

  /** An unreadable lower bound counts as 0 and an unreadable upper bound as the largest value. */
  function Bound(text: Option<string>, unreadable: nat): Option<nat> {
    if text.None? then None else Some(OrElse(Numerals.Parse(text.value, U128_MAX), unreadable))
  }

  predicate Satisfies(condition: Condition, tx: ParsedTransaction, hour: nat, lower: LowerCase) {
    match condition
    case ValueRange(minWei, maxWei) =>
      Within(OrElse(Numerals.Parse(tx.value, U128_MAX), 0), Bound(minWei, 0), Bound(maxWei, U128_MAX))
    case GasPriceRange(minGwei, maxGwei) =>
      Within(OrElse(Numerals.Parse(tx.gasPrice, U64_MAX), 0) / WEI_PER_GWEI, minGwei, maxGwei)
    case TargetTypeIs(types) => TypeName(tx.targetType) in types
    case FunctionSignature(signatures) => tx.functionSignature.Some? && tx.functionSignature.value in signatures
    case ContractAddress(addresses, whitelist) =>
      if tx.to.Some? then Listed(addresses, tx.to.value, lower) == whitelist else !whitelist
    case SenderAddress(addresses, whitelist) => Listed(addresses, tx.from, lower) == whitelist
    case DataSize(minBytes, maxBytes) => Within(DataBytes(tx.input), minBytes, maxBytes)
    case TimeOfDay(startHour, endHour) =>
      if startHour <= endHour then startHour <= hour <= endHour else startHour <= hour || hour <= endHour
    case DataPattern(pattern, caseSensitive) =>
      if caseSensitive then Contains(tx.input, pattern) else Contains(lower(tx.input), lower(pattern))
  }

  /** The number in a text, if it is a numeral that fits `max`. */
  function Reading(text: string, max: nat, unreadable: nat): nat {
    if Numerals.IsNumeral(text) && Numerals.ValueOf(text) <= max then Numerals.ValueOf(text) else unreadable
  }

  /** A value range admits exactly the values between those of its bounds that it has; an unreadable value
      or lower bound counts as 0, and an unreadable upper bound as none. */
  lemma ValueRangeMeaning(tx: ParsedTransaction, low: Option<string>, high: Option<string>, hour: nat, lower: LowerCase)
    ensures Satisfies(ValueRange(low, high), tx, hour, lower) <==>
      var max := U128_MAX;
      && (low.Some? ==> Reading(low.value, max, 0) <= Reading(tx.value, max, 0))
      && (high.Some? ==> Reading(tx.value, max, 0) <= Reading(high.value, max, max))
  {
    Numerals.ParseExactly(tx.value, U128_MAX);
    if low.Some? {
      Numerals.ParseExactly(low.value, U128_MAX);
    }
    if high.Some? {
      Numerals.ParseExactly(high.value, U128_MAX);
    }
  }

  /** How many bytes of call data an input spells out in hexadecimal, after its prefix if it has one. */
  function CallDataBytes(input: string): nat {
    (if "0x" <= input then |input| - 2 else |input|) / 2
  }

  /** "Remove 0x prefix and convert hex to bytes": the size is right exactly when there is a prefix. */
  lemma DataBytesExactly(input: string)
    ensures DataBytes(input) == CallDataBytes(input) <==> "0x" <= input
  {
  }

  /** A size range admits exactly the inputs whose call data, two digits a byte, is within it, if they have a
      prefix. */
  lemma DataSizeMeaning(tx: ParsedTransaction, digits: string, low: Option<nat>, high: Option<nat>, hour: nat,
                        lower: LowerCase)
    requires tx.input == "0x" + digits
    ensures CallDataBytes(tx.input) == |digits| / 2
    ensures Satisfies(DataSize(low, high), tx, hour, lower) <==>
      (low.Some? ==> low.value <= |digits| / 2) && (high.Some? ==> |digits| / 2 <= high.value)
  {
  }

  /** The empty input passes every lower bound and no smaller upper bound than the largest number. */
  lemma EmptyInputIsEnormous(tx: ParsedTransaction, low: nat, high: nat, hour: nat, lower: LowerCase)
    requires tx.input == "" && low <= U64_MAX && high < U64_MAX
    ensures CallDataBytes(tx.input) == 0
    ensures Satisfies(DataSize(Some(low), None), tx, hour, lower)
    ensures !Satisfies(DataSize(None, Some(high)), tx, hour, lower)
  {
  }

  /** Gas bounds in whole gwei, stated for the price in wei; an unreadable price counts as 0. */
  lemma GasPriceMeaning(tx: ParsedTransaction, low: Option<nat>, high: Option<nat>, hour: nat, lower: LowerCase)
    ensures Satisfies(GasPriceRange(low, high), tx, hour, lower) <==>
      var wei := Reading(tx.gasPrice, U64_MAX, 0);
      && (low.Some? ==> wei >= low.value * 1_000_000_000)
      && (high.Some? ==> wei < (high.value + 1) * 1_000_000_000)
  {
    Numerals.ParseExactly(tx.gasPrice, U64_MAX);
  }

  /** A target condition that lists the names of some target types admits exactly these. */
  lemma TargetTypeMeaning(tx: ParsedTransaction, types: seq<TargetType>, hour: nat, lower: LowerCase)
    ensures var names := seq(|types|, i requires 0 <= i < |types| => TypeName(types[i]));
      Satisfies(TargetTypeIs(names), tx, hour, lower) <==> tx.targetType in types
  {
    var names := seq(|types|, i requires 0 <= i < |types| => TypeName(types[i]));
    forall a: TargetType, b: TargetType ensures TypeName(a) == TypeName(b) <==> a == b {
      NamesDiffer(a, b);
    }
    if tx.targetType in types {
      var i :| 0 <= i < |types| && types[i] == tx.targetType;
      assert names[i] == TypeName(tx.targetType);
    }
    if TypeName(tx.targetType) in names {
      var i :| 0 <= i < |names| && names[i] == TypeName(tx.targetType);
      assert types[i] == tx.targetType;
    }
  }

  lemma NamesDiffer(a: TargetType, b: TargetType)
    ensures TypeName(a) == TypeName(b) <==> a == b
  {
    assert |TypeName(UniswapV2)| == |TypeName(UniswapV3)| == |TypeName(SushiSwap)| == |TypeName(OrderBook)| == 9;
    assert TypeName(UniswapV2)[8] == '2' && TypeName(UniswapV3)[8] == '3';
    assert TypeName(SushiSwap)[0] == 'S' && TypeName(OrderBook)[0] == 'O' && TypeName(UniswapV2)[0] == 'U';
    assert |TypeName(Curve)| == 5 && |TypeName(Balancer)| == 8 && |TypeName(Unknown)| == 7;
  }

  /** A transaction whose input was not decoded has no signature; otherwise the signature must be listed. */
  lemma SignatureMeaning(tx: ParsedTransaction, signatures: seq<string>, hour: nat, lower: LowerCase)
    ensures Satisfies(FunctionSignature(signatures), tx, hour, lower) <==>
      exists k :: 0 <= k < |signatures| && tx.functionSignature == Some(signatures[k])
  {
  }

  /** A whitelist admits exactly the listed senders, up to case, and a blacklist exactly the others. */
  lemma SenderMeaning(tx: ParsedTransaction, addresses: seq<string>, hour: nat, lower: LowerCase)
    ensures Satisfies(SenderAddress(addresses, true), tx, hour, lower) <==>
      exists k :: 0 <= k < |addresses| && lower(addresses[k]) == lower(tx.from)
    ensures Satisfies(SenderAddress(addresses, false), tx, hour, lower) <==>
      forall k :: 0 <= k < |addresses| ==> lower(addresses[k]) != lower(tx.from)
  {
  }

  /** The same for the contract that is called; the creation of a contract passes blacklists only. */
  lemma ContractMeaning(tx: ParsedTransaction, addresses: seq<string>, hour: nat, lower: LowerCase)
    ensures Satisfies(ContractAddress(addresses, true), tx, hour, lower) <==>
      tx.to.Some? && exists k :: 0 <= k < |addresses| && lower(addresses[k]) == lower(tx.to.value)
    ensures Satisfies(ContractAddress(addresses, false), tx, hour, lower) <==>
      tx.to.Some? ==> forall k :: 0 <= k < |addresses| ==> lower(addresses[k]) != lower(tx.to.value)
  {
  }

  /** The hours admitted are those reached from the start to the end, going round the clock. */
  lemma TimeOfDayMeaning(tx: ParsedTransaction, start: nat, end: nat, hour: nat, lower: LowerCase)
    requires start < 24 && end < 24 && hour < 24
    ensures Satisfies(TimeOfDay(start, end), tx, hour, lower) <==>
      exists n: nat :: n <= (end + 24 - start) % 24 && ClockAfter(start, n) == hour
  {
    var n := (hour + 24 - start) % 24;
    assert ClockAfter(start, n) == hour;
  }

  function ClockAfter(start: nat, hours: nat): nat { (start + hours) % 24 }

  /** A start or an end that no clock shows leaves only the other bound. */
  lemma TimeOfDayBeyond(tx: ParsedTransaction, start: nat, end: nat, hour: nat, lower: LowerCase)
    requires hour < 24
    ensures start <= end && end >= 24 ==> (Satisfies(TimeOfDay(start, end), tx, hour, lower) <==> hour >= start)
    ensures start > end && start >= 24 ==> (Satisfies(TimeOfDay(start, end), tx, hour, lower) <==> hour <= end)
  {
  }

  ghost predicate IsPartOf(pattern: string, data: string) {
    exists before, after :: data == before + pattern + after
  }

  lemma ContainsMeaning(data: string, pattern: string)
    ensures Contains(data, pattern) <==> IsPartOf(pattern, data)
  {
    if Contains(data, pattern) {
      var i :| 0 <= i <= |data| - |pattern| && OccursAt(data, pattern, i);
      assert data == data[..i] + pattern + data[i + |pattern|..];
    }
    if IsPartOf(pattern, data) {
      var before, after :| data == before + pattern + after;
      assert OccursAt(data, pattern, |before|);
    }
  }

  /** A pattern must stand somewhere in the input, or its lower case in that of the input. */
  lemma PatternMeaning(tx: ParsedTransaction, pattern: string, hour: nat, lower: LowerCase)
    ensures Satisfies(DataPattern(pattern, true), tx, hour, lower) <==> IsPartOf(pattern, tx.input)
    ensures Satisfies(DataPattern(pattern, false), tx, hour, lower) <==> IsPartOf(lower(pattern), lower(tx.input))
  {
    ContainsMeaning(tx.input, pattern);
    ContainsMeaning(lower(tx.input), lower(pattern));
  }

  // ----- what one pass over the rules should do

  /** Everything a pass depends on. */
  datatype Pass = Pass(
    rules: seq<Rule>, tx: ParsedTransaction, clock: nat -> real, hourAt: (nat, nat) -> nat,
    limiters: map<string, Limiter>, lower: LowerCase)

  /** Rule `i` is enabled and all its conditions hold. */
  predicate Fires(p: Pass, i: nat)
    requires i < |p.rules|
  {
    && p.rules[i].enabled
    && forall k :: 0 <= k < |p.rules[i].conditions| ==>
         Satisfies(p.rules[i].conditions[k], p.tx, p.hourAt(i, k), p.lower)
  }

  /** Rule `i` consults a rate limiter. */
  predicate Consults(p: Pass, i: nat)
    requires i < |p.rules|
  {
    Fires(p, i) && p.rules[i].action.RateLimit? && p.rules[i].name in p.limiters
  }

  /** The limiters after the first `n` rules have consulted theirs. */
  function LimitersAfter(p: Pass, n: nat): (limiters: map<string, Limiter>)
    requires n <= |p.rules|
    ensures limiters.Keys == p.limiters.Keys
  {
    if n == 0 then p.limiters
    else
      var before := LimitersAfter(p, n - 1);
      var name := p.rules[n - 1].name;
      if Consults(p, n - 1) then before[name := Admit(before[name], p.clock(n - 1)).0] else before
  }

  /** Rule `i` drops the transaction: it rejects it, or its rate limiter is exhausted. */
  predicate Drops(p: Pass, i: nat)
    requires i < |p.rules|
  {
    || (Fires(p, i) && p.rules[i].action.Reject?)
    || (Consults(p, i) && !Admit(LimitersAfter(p, i)[p.rules[i].name], p.clock(i)).1)
  }

  /** The priority given by rule `i`, if it gives one. */
  function Level(p: Pass, i: nat): Option<nat>
    requires i < |p.rules|
  {
    if !Fires(p, i) then None
    else
      match p.rules[i].action
      case Accept => Some(ACCEPT_PRIORITY)
      case SetPriority(level) => Some(level)
      case _ => None
  }

  /** Rule `i` fires and gives a priority: 255 if it accepts, otherwise its level. */
  predicate GivesPriority(p: Pass, i: nat)
    requires i < |p.rules|
  {
    Fires(p, i) && (p.rules[i].action.Accept? || p.rules[i].action.SetPriority?)
  }

  /** `priority` is the one given by the last of the first `n` rules that gives any. */
  ghost predicate IsPriority(p: Pass, n: nat, priority: nat)
    requires n <= |p.rules|
  {
    || (priority == 128 && forall i :: 0 <= i < n ==> !GivesPriority(p, i))
    || (exists i ::
          && 0 <= i < n && GivesPriority(p, i) && (forall j :: i < j < n ==> !GivesPriority(p, j))
          && match p.rules[i].action
             case Accept => priority == 255
             case SetPriority(level) => priority == level
             case _ => false)
  }

  function RuleTags(p: Pass, i: nat): seq<string>
    requires i < |p.rules|
  {
    if Fires(p, i) && p.rules[i].action.Tag? then p.rules[i].action.tags else []
  }

  /** The name of rule `i` if it fires. */
  function RuleNames(p: Pass, i: nat): seq<string>
    requires i < |p.rules|
  {
    if Fires(p, i) then [p.rules[i].name] else []
  }

  /** The tags of each of the first `n` rules. */
  function TagLists(p: Pass, n: nat): (lists: seq<seq<string>>)
    requires n <= |p.rules|
    ensures |lists| == n
  {
    if n == 0 then [] else TagLists(p, n - 1) + [RuleTags(p, n - 1)]
  }

  function NameLists(p: Pass, n: nat): (lists: seq<seq<string>>)
    requires n <= |p.rules|
    ensures |lists| == n
  {
    if n == 0 then [] else NameLists(p, n - 1) + [RuleNames(p, n - 1)]
  }

  lemma {:induction false} TagListsAt(p: Pass, n: nat, i: nat)
    requires i < n <= |p.rules|
    ensures TagLists(p, n)[i] == RuleTags(p, i)
  {
    if i == n - 1 {
    } else {
      TagListsAt(p, n - 1, i);
    }
  }

  lemma {:induction false} NameListsAt(p: Pass, n: nat, i: nat)
    requires i < n <= |p.rules|
    ensures NameLists(p, n)[i] == RuleNames(p, i)
  {
    if i == n - 1 {
    } else {
      NameListsAt(p, n - 1, i);
    }
  }

  /** Rule `i` fires and gives this tag. */
  predicate GivesTag(p: Pass, i: nat, tag: string)
    requires i < |p.rules|
  {
    Fires(p, i) && p.rules[i].action.Tag? && tag in p.rules[i].action.tags
  }

  predicate HasFiredAs(p: Pass, i: nat, name: string)
    requires i < |p.rules|
  {
    Fires(p, i) && p.rules[i].name == name
  }

  lemma RuleListsAt(p: Pass, n: nat, i: nat, x: string)
    requires i < n <= |p.rules|
    ensures x in TagLists(p, n)[i] <==> GivesTag(p, i, x)
    ensures x in NameLists(p, n)[i] <==> HasFiredAs(p, i, x)
  {
    TagListsAt(p, n, i);
    NameListsAt(p, n, i);
  }

  ghost predicate HasTag(p: Pass, n: nat, tag: string)
    requires n <= |p.rules|
  {
    exists i :: 0 <= i < n && GivesTag(p, i, tag)
  }

  ghost predicate HasFired(p: Pass, n: nat, name: string)
    requires n <= |p.rules|
  {
    exists i :: 0 <= i < n && HasFiredAs(p, i, name)
  }

  /** A tag is there if and only if some tag rule that fires has it. */
  lemma TagsAreUnion(p: Pass, n: nat, tag: string)
    requires n <= |p.rules|
    ensures tag in Distinct(Concat(TagLists(p, n))) <==> HasTag(p, n, tag)
  {
    var lists := TagLists(p, n);
    DistinctKeepsElements(Concat(lists), tag);
    InConcat(lists, tag);
    forall i | 0 <= i < n ensures tag in lists[i] <==> GivesTag(p, i, tag) {
      RuleListsAt(p, n, i, tag);
    }
  }

  /** A rule name is listed if and only if a rule of that name has fired. */
  lemma NamesAreUnion(p: Pass, n: nat, name: string)
    requires n <= |p.rules|
    ensures name in Distinct(Concat(NameLists(p, n))) <==> HasFired(p, n, name)
  {
    var lists := NameLists(p, n);
    DistinctKeepsElements(Concat(lists), name);
    InConcat(lists, name);
    forall i | 0 <= i < n ensures name in lists[i] <==> HasFiredAs(p, i, name) {
      RuleListsAt(p, n, i, name);
    }
  }

  // ----- the engine

  /** The limiters after loading: each rate-limit rule in turn gets a new one under its name. */
  function Loaded(limiters: map<string, Limiter>, rules: seq<Rule>, clock: nat -> real, n: nat): map<string, Limiter>
    requires n <= |rules|
  {
    if n == 0 then limiters
    else
      var before := Loaded(limiters, rules, clock, n - 1);
      match rules[n - 1].action
      case RateLimit(max) => before[rules[n - 1].name := Full(max, clock(n - 1))]
      case _ => before
  }

  ghost predicate FirstNamed(rules: seq<Rule>, name: string, i: nat) {
    i < |rules| && rules[i].name == name && forall j :: 0 <= j < i ==> rules[j].name != name
  }

  /** Higher priority first. */
  function Urgency(rule: Rule): real { -(rule.priority as real) }

  class FilterEngine {
    var rules: seq<Rule>
    var rateLimiters: map<string, RateLimiter>
    var stats: Stats
    const lower: LowerCase

    /** Every name has a limiter of its own. */
    ghost predicate Owned()
      reads this`rateLimiters
    {
      forall name :: name in rateLimiters ==> rateLimiters[name].rule == name
    }

    ghost predicate Valid()
      reads this
    {
      Owned() && stats.totalProcessed == stats.accepted + stats.rejected + stats.rateLimited
    }

    ghost function Limiters(): map<string, Limiter>
      reads this`rateLimiters, rateLimiters.Values
    {
      map name | name in rateLimiters :: rateLimiters[name].View()
    }

    constructor (lower: LowerCase)
      ensures Valid() && rules == [] && Limiters() == map[] && stats == NO_STATS && this.lower == lower
    {
      this.lower := lower;
      rules, rateLimiters, stats := [], map[], NO_STATS;
    }

    method LoadRules(newRules: seq<Rule>, clock: nat -> real)
      requires Valid()
      modifies this`rules, this`rateLimiters
      ensures Valid()
      ensures rules == SortBy(newRules, Urgency)
      ensures Limiters() == Loaded(old(Limiters()), rules, clock, |rules|)
      ensures fresh(rateLimiters.Values - old(rateLimiters.Values))
    {
      var sorted := SortBy(newRules, Urgency);
      rules := sorted;
      for i := 0 to |sorted|
        invariant Valid() && rules == sorted
        invariant Limiters() == Loaded(old(Limiters()), sorted, clock, i)
        invariant fresh(rateLimiters.Values - old(rateLimiters.Values))
      {
        match sorted[i].action {
          case RateLimit(max) => Install(sorted[i].name, max, clock(i));
          case _ =>
        }
      }
    }

    method Install(name: string, max: nat, now: real)
      requires Valid()
      modifies this`rateLimiters
      ensures Valid()
      ensures Limiters() == old(Limiters())[name := Full(max, now)]
      ensures fresh(rateLimiters.Values - old(rateLimiters.Values))
    {
      var limiter := new RateLimiter(name, max, now);
      rateLimiters := rateLimiters[name := limiter];
    }

    method EvaluateRule(rule: Rule, i: nat, tx: ParsedTransaction, hourAt: (nat, nat) -> nat) returns (matches: bool)
      ensures matches <==>
        forall k :: 0 <= k < |rule.conditions| ==> Satisfies(rule.conditions[k], tx, hourAt(i, k), lower)
    {
      for n := 0 to |rule.conditions|
        invariant forall k :: 0 <= k < n ==> Satisfies(rule.conditions[k], tx, hourAt(i, k), lower)
      {
        if !Satisfies(rule.conditions[n], tx, hourAt(i, n), lower) {
          return false;
        }
      }
      matches := true;
    }

    /** Consults the limiter registered under `name`, if there is one. */
    method ConsultLimiter(name: string, now: real) returns (allowed: bool)
      requires Owned()
      modifies rateLimiters.Values
      ensures name !in old(Limiters()) ==> allowed && Limiters() == old(Limiters())
      ensures name in old(Limiters()) ==>
                && allowed == Admit(old(Limiters())[name], now).1
                && Limiters() == old(Limiters())[name := Admit(old(Limiters())[name], now).0]
    {
      if name in rateLimiters {
        allowed := rateLimiters[name].Allow(now);
      } else {
        allowed := true;
      }
    }

    method AddAll(tags: seq<string>, more: seq<string>) returns (united: seq<string>)
      ensures united == AddMissing(tags, more)
    {
      united := tags;
      for k := 0 to |more|
        invariant united == AddMissing(tags, more[..k])
      {
        assert more[..k + 1][..k] == more[..k];
        if more[k] !in united {
          united := united + [more[k]];
        }
      }
      assert more[..|more|] == more;
    }

    /** The action of rule `i`, which has matched, on the draft left by the rules before it. */
    method ApplyAction(rule: Rule, i: nat, now: real, draft: Filtered, ghost p: Pass) returns (next: Option<Filtered>)
      requires Owned()
      requires i < |p.rules| && rule == p.rules[i] && now == p.clock(i) && Fires(p, i)
      requires Limiters() == LimitersAfter(p, i)
      modifies rateLimiters.Values
      ensures Limiters() == LimitersAfter(p, i + 1)
      ensures next.None? <==> Drops(p, i)
      ensures next.Some? ==>
        next.value == draft.(tags := AddMissing(draft.tags, RuleTags(p, i)),
                             priority := OrElse(Level(p, i), draft.priority))
    {
      next := Some(draft);
      match rule.action {
        case Accept => next := Some(draft.(priority := ACCEPT_PRIORITY));
        case Reject => next := None;
        case Tag(more) =>
          var tags := AddAll(draft.tags, more);
          next := Some(draft.(tags := tags));
        case SetPriority(level) => next := Some(draft.(priority := level));
        case RateLimit(_) =>
          var allowed := ConsultLimiter(rule.name, now);
          if !allowed {
            next := None;
          }
      }
    }

    /** Rule `i` of the pass; `None` if it drops the transaction. */
    method ApplyRule(rule: Rule, i: nat, now: real, hourAt: (nat, nat) -> nat, draft: Filtered, ghost p: Pass)
        returns (next: Option<Filtered>)
      requires Owned()
      requires i < |p.rules| && rule == p.rules[i] && now == p.clock(i)
      requires hourAt == p.hourAt && lower == p.lower
      requires Limiters() == LimitersAfter(p, i) && draft.transaction == p.tx
      modifies rateLimiters.Values
      ensures Limiters() == LimitersAfter(p, i + 1)
      ensures next == if Drops(p, i) then None else Some(Revised(draft, p, i))
    {
      var matches := false;
      if rule.enabled {
        matches := EvaluateRule(rule, i, draft.transaction, hourAt);
      }
      assert matches <==> Fires(p, i);
      if !matches {
        return Some(draft);
      }
      var names := AddAll(draft.matchedRules, [rule.name]);
      next := ApplyAction(rule, i, now, draft.(matchedRules := names), p);
    }

    /** The loop over the rules: the finished draft, or the rule that dropped the transaction. */
    method ApplyRules(tx: ParsedTransaction, clock: nat -> real, hourAt: (nat, nat) -> nat, ghost p: Pass)
        returns (next: Option<Filtered>, at: nat)
      requires Owned() && p == Pass(rules, tx, clock, hourAt, Limiters(), lower)
      modifies rateLimiters.Values
      ensures at <= |rules| && FirstDrop(p, at) == None
      ensures if next.None? then at < |rules| && Drops(p, at) else at == |rules|
      ensures Limiters() == LimitersAfter(p, if next.None? then at + 1 else at)
      ensures next.Some? ==> next.value == Draft(p, at)
    {
      var all := rules;
      var draft := Filtered(tx, DEFAULT_PRIORITY, [], []);
      next, at := Some(draft), 0;
      while at < |all|
        invariant at <= |all| && FirstDrop(p, at) == None
        invariant Limiters() == LimitersAfter(p, at)
        invariant draft == Draft(p, at)
        invariant next == Some(draft)
      {
        next := ApplyRule(all[at], at, clock(at), hourAt, draft, p);
        NextDrop(p, at);
        if next.None? {
          return;
        }
        draft, at := next.value, at + 1;
      }
    }

    /** The result, the new statistics and the new limiters are those of `Verdict`, whose meaning
        `VerdictMeaning` gives. */
    method FilterTransaction(tx: ParsedTransaction, clock: nat -> real, hourAt: (nat, nat) -> nat)
        returns (result: Option<Filtered>)
      requires Valid()
      modifies this`stats, rateLimiters.Values
      ensures Valid()
      ensures (result, stats, Limiters()) == Verdict(Pass(rules, tx, clock, hourAt, old(Limiters()), lower), old(stats))
      ensures stats.totalProcessed == old(stats).totalProcessed + 1
      ensures stats.accepted == old(stats).accepted + (if result.Some? then 1 else 0)
    {
      ghost var p := Pass(rules, tx, clock, hourAt, Limiters(), lower);
      var at;
      result, at := ApplyRules(tx, clock, hourAt, p);
      if result.None? {
        VerdictOnDrop(p, at, stats);
        CountDropped(rules[at].action.Reject?);
      } else {
        stats := CountAccepted(stats);
      }
    }

    method CountDropped(rejected: bool)
      modifies this`stats
      ensures stats == CountDrop(old(stats), rejected)
    {
      stats := stats.(totalProcessed := stats.totalProcessed + 1);
      if rejected {
        stats := stats.(rejected := stats.rejected + 1);
      } else {
        stats := stats.(rateLimited := stats.rateLimited + 1);
      }
    }

    /** Switches the first rule with this name. */
    method SetRuleEnabled(name: string, enabled: bool) returns (found: bool)
      requires Valid()
      modifies this`rules
      ensures Valid()
      ensures found <==> exists i: nat :: FirstNamed(old(rules), name, i)
      ensures !found ==> rules == old(rules)
      ensures forall i: nat :: FirstNamed(old(rules), name, i) ==>
                rules == old(rules)[i := old(rules)[i].(enabled := enabled)]
    {
      for i := 0 to |rules|
        invariant rules == old(rules)
        invariant forall j :: 0 <= j < i ==> rules[j].name != name
      {
        if rules[i].name == name {
          assert FirstNamed(rules, name, i);
          rules := rules[i := rules[i].(enabled := enabled)];
          return true;
        }
      }
      found := false;
    }

    method ResetStats()
      requires Valid()
      modifies this`stats
      ensures Valid() && stats == NO_STATS
    {
      stats := NO_STATS;
    }
  }

  function PriorityAfter(p: Pass, n: nat): nat
    requires n <= |p.rules|
  {
    if n == 0 then DEFAULT_PRIORITY else OrElse(Level(p, n - 1), PriorityAfter(p, n - 1))
  }

  lemma {:induction false} PriorityIsLast(p: Pass, n: nat)
    requires n <= |p.rules|
    ensures IsPriority(p, n, PriorityAfter(p, n))
  {
    if n == 0 {
    } else {
      PriorityIsLast(p, n - 1);
    }
  }

  /** What rule `i` makes of a draft, if it does not drop the transaction. */
  function Revised(draft: Filtered, p: Pass, i: nat): Filtered
    requires i < |p.rules|
  {
    if !Fires(p, i) then draft
    else
      Filtered(draft.transaction, OrElse(Level(p, i), draft.priority), AddMissing(draft.tags, RuleTags(p, i)),
               AddMissing(draft.matchedRules, RuleNames(p, i)))
  }

  /** The transaction as the first `n` rules leave it, if none of them drops it. */
  function Draft(p: Pass, n: nat): (draft: Filtered)
    requires n <= |p.rules|
    ensures draft.transaction == p.tx
  {
    if n == 0 then Filtered(p.tx, DEFAULT_PRIORITY, [], []) else Revised(Draft(p, n - 1), p, n - 1)
  }

  lemma RevisedParts(draft: Filtered, p: Pass, i: nat)
    requires i < |p.rules|
    ensures var next := Revised(draft, p, i);
      && next.tags == AddMissing(draft.tags, RuleTags(p, i))
      && next.priority == OrElse(Level(p, i), draft.priority)
      && next.matchedRules == AddMissing(draft.matchedRules, RuleNames(p, i))
  {
  }

  lemma DraftStep(p: Pass, i: nat)
    requires i < |p.rules|
    ensures Draft(p, i + 1) == Revised(Draft(p, i), p, i)
  {
  }

  lemma {:induction false} DraftLists(p: Pass, n: nat)
    requires n <= |p.rules|
    ensures Draft(p, n).tags == Union(TagLists(p, n))
    ensures Draft(p, n).matchedRules == Union(NameLists(p, n))
  {
    if n == 0 {
    } else {
      DraftLists(p, n - 1);
      DraftStep(p, n - 1);
      RevisedParts(Draft(p, n - 1), p, n - 1);
      UnionSnoc(TagLists(p, n - 1), RuleTags(p, n - 1));
      UnionSnoc(NameLists(p, n - 1), RuleNames(p, n - 1));
    }
  }

  lemma {:induction false} DraftPriority(p: Pass, n: nat)
    requires n <= |p.rules|
    ensures Draft(p, n).priority == PriorityAfter(p, n)
  {
    if n == 0 {
    } else {
      DraftPriority(p, n - 1);
      DraftStep(p, n - 1);
      RevisedParts(Draft(p, n - 1), p, n - 1);
    }
  }

  /** Rule by rule, it comes to the last priority, the union of the tags and the names that fired. */
  lemma DraftMeaning(p: Pass, n: nat)
    requires n <= |p.rules|
    ensures Draft(p, n) ==
      Filtered(p.tx, PriorityAfter(p, n), Distinct(Concat(TagLists(p, n))), Distinct(Concat(NameLists(p, n))))
  {
    DraftLists(p, n);
    UnionIsDistinct(TagLists(p, n));
    UnionIsDistinct(NameLists(p, n));
    DraftPriority(p, n);
  }

  /** The first of the first `n` rules that drops the transaction. */
  function FirstDrop(p: Pass, n: nat): (first: Option<nat>)
    requires n <= |p.rules|
    ensures first.Some? ==> first.value < n
  {
    if n == 0 then None
    else
      var before := FirstDrop(p, n - 1);
      if before.None? && Drops(p, n - 1) then Some(n - 1) else before
  }

  lemma NextDrop(p: Pass, n: nat)
    requires n < |p.rules| && FirstDrop(p, n).None?
    ensures FirstDrop(p, n + 1) == if Drops(p, n) then Some(n) else None
  {
  }

  lemma {:induction false} FirstDropStays(p: Pass, m: nat, n: nat)
    requires m <= n <= |p.rules| && FirstDrop(p, m).Some?
    ensures FirstDrop(p, n) == FirstDrop(p, m)
  {
    if m >= n {
    } else {
      FirstDropStays(p, m, n - 1);
    }
  }

  lemma {:induction false} FirstDropIsFirst(p: Pass, n: nat)
    requires n <= |p.rules|
    ensures match FirstDrop(p, n)
      case Some(i) => Drops(p, i) && forall j :: 0 <= j < i ==> !Drops(p, j)
      case None => forall j :: 0 <= j < n ==> !Drops(p, j)
  {
    if n == 0 {
    } else {
      FirstDropIsFirst(p, n - 1);
    }
  }

  /** Result, statistics and limiters after a pass. */
  function Verdict(p: Pass, stats: Stats): (Option<Filtered>, Stats, map<string, Limiter>) {
    match FirstDrop(p, |p.rules|)
    case Some(i) => (None, CountDrop(stats, p.rules[i].action.Reject?), LimitersAfter(p, i + 1))
    case None => (Some(Draft(p, |p.rules|)), CountAccepted(stats), LimitersAfter(p, |p.rules|))
  }

  lemma DropDecides(p: Pass, i: nat)
    requires i < |p.rules| && FirstDrop(p, i).None? && Drops(p, i)
    ensures FirstDrop(p, |p.rules|) == Some(i)
  {
    NextDrop(p, i);
    FirstDropStays(p, i + 1, |p.rules|);
  }

  lemma VerdictOnDrop(p: Pass, i: nat, stats: Stats)
    requires i < |p.rules| && FirstDrop(p, i).None? && Drops(p, i)
    ensures Verdict(p, stats) == (None, CountDrop(stats, p.rules[i].action.Reject?), LimitersAfter(p, i + 1))
  {
    DropDecides(p, i);
  }

  /** The transaction is dropped exactly when some rule drops it; then the first such rule decides
      how it is counted and is the last one to consult a limiter.  Otherwise it gets the priority
      of the last rule that sets one, the union of the tags, and the names of the rules that
      fired. */
  lemma VerdictMeaning(p: Pass, stats: Stats)
    ensures var (result, after, limiters) := Verdict(p, stats);
      && (result.None? <==> exists i :: 0 <= i < |p.rules| && Drops(p, i))
      && (result.None? ==> DroppedBy(p, stats, after, limiters))
      && (result.Some? ==> Kept(p, result.value, limiters))
      && (result.Some? ==> after == stats.(totalProcessed := stats.totalProcessed + 1, accepted := stats.accepted + 1))
  {
    FirstDropIsFirst(p, |p.rules|);
    match FirstDrop(p, |p.rules|)
    case Some(i) => DropMeaning(p, i, stats);
    case None => DraftIsKept(p);
  }

  lemma DropMeaning(p: Pass, i: nat, stats: Stats)
    requires i < |p.rules| && Drops(p, i) && forall j :: 0 <= j < i ==> !Drops(p, j)
    ensures DroppedBy(p, stats, CountDrop(stats, p.rules[i].action.Reject?), LimitersAfter(p, i + 1))
  {
    assert p.rules[i].action.Reject? || p.rules[i].action.RateLimit?;
  }

  lemma DraftIsKept(p: Pass)
    ensures Kept(p, Draft(p, |p.rules|), LimitersAfter(p, |p.rules|))
  {
    DraftMeaning(p, |p.rules|);
    PriorityIsLast(p, |p.rules|);
    forall tag: string
      ensures tag in Distinct(Concat(TagLists(p, |p.rules|))) <==> HasTag(p, |p.rules|, tag)
      ensures tag in Distinct(Concat(NameLists(p, |p.rules|))) <==> HasFired(p, |p.rules|, tag)
    {
      TagsAreUnion(p, |p.rules|, tag);
      NamesAreUnion(p, |p.rules|, tag);
    }
  }

  /** The first rule that drops the transaction decides which counter goes up, and it is the last one
      consulted. */
  ghost predicate DroppedBy(p: Pass, before: Stats, after: Stats, limiters: map<string, Limiter>) {
    exists i ::
      && 0 <= i < |p.rules| && Drops(p, i) && (forall j :: 0 <= j < i ==> !Drops(p, j))
      && limiters == LimitersAfter(p, i + 1)
      && after.totalProcessed == before.totalProcessed + 1 && after.accepted == before.accepted
      && after.rejected == before.rejected + (if p.rules[i].action.Reject? then 1 else 0)
      && after.rateLimited == before.rateLimited + (if p.rules[i].action.RateLimit? then 1 else 0)
  }

  ghost predicate Kept(p: Pass, result: Filtered, limiters: map<string, Limiter>) {
    && limiters == LimitersAfter(p, |p.rules|)
    && result.transaction == p.tx
    && IsPriority(p, |p.rules|, result.priority)
    && (forall tag :: tag in result.tags <==> HasTag(p, |p.rules|, tag))
    && (forall name :: name in result.matchedRules <==> HasFired(p, |p.rules|, name))
    && result.tags == Distinct(Concat(TagLists(p, |p.rules|)))
    && result.matchedRules == Distinct(Concat(NameLists(p, |p.rules|)))
  }

  /** A rule that is disabled or has a condition that fails changes nothing. */
  lemma QuietRulesDoNothing(p: Pass, i: nat, k: nat)
    requires i < |p.rules|
    requires p.rules[i].enabled ==>
      k < |p.rules[i].conditions| && !Satisfies(p.rules[i].conditions[k], p.tx, p.hourAt(i, k), p.lower)
    ensures !Drops(p, i) && Draft(p, i + 1) == Draft(p, i) && LimitersAfter(p, i + 1) == LimitersAfter(p, i)
  {
  }

  /** An enabled rule all of whose conditions hold drops the transaction if it rejects or if its limiter has
      no token left, and otherwise not; other limiters are untouched. */
  lemma FiringRulesAct(p: Pass, i: nat)
    requires i < |p.rules| && p.rules[i].enabled
    requires forall k :: 0 <= k < |p.rules[i].conditions| ==>
      Satisfies(p.rules[i].conditions[k], p.tx, p.hourAt(i, k), p.lower)
    ensures match p.rules[i].action
      case Reject => Drops(p, i)
      case RateLimit(_) =>
        var name := p.rules[i].name;
        if name in p.limiters then Drops(p, i) <==> Refill(LimitersAfter(p, i)[name], p.clock(i)).tokens == 0
        else !Drops(p, i)
      case _ => !Drops(p, i) && LimitersAfter(p, i + 1) == LimitersAfter(p, i)
    ensures forall other :: other in p.limiters && other != p.rules[i].name ==>
      LimitersAfter(p, i + 1)[other] == LimitersAfter(p, i)[other]
  {
  }

  function CountAccepted(stats: Stats): Stats {
    stats.(totalProcessed := stats.totalProcessed + 1, accepted := stats.accepted + 1)
  }

  /** The statistics after a drop by a rule that rejects, or by a rate limiter. */
  function CountDrop(stats: Stats, rejected: bool): Stats {
    var counted := stats.(totalProcessed := stats.totalProcessed + 1);
    if rejected then counted.(rejected := stats.rejected + 1) else counted.(rateLimited := stats.rateLimited + 1)
  }

  /** Loading puts the rules in descending priority, equal priorities in their given order, and
      gives every name with a rate-limit rule a full limiter with the limit of the last such rule;
      limiters of other names stay. */
  lemma LoadedRules(newRules: seq<Rule>, priority: int)
    ensures var loaded := SortBy(newRules, Urgency);
      && multiset(loaded) == multiset(newRules)
      && (forall i, j :: 0 <= i < j < |loaded| ==> loaded[i].priority >= loaded[j].priority)
      && WithKey(loaded, Urgency, -(priority as real)) == WithKey(newRules, Urgency, -(priority as real))
  {
    SortIsSorted(newRules, Urgency);
    SortIsStable(newRules, Urgency, -(priority as real));
    var loaded := SortBy(newRules, Urgency);
    forall i, j | 0 <= i < j < |loaded| ensures loaded[i].priority >= loaded[j].priority {
      assert Urgency(loaded[i]) <= Urgency(loaded[j]);
    }
  }

  /** Rule `i` is the last of the first `n` that sets a limit under this name. */
  ghost predicate LastLimit(rules: seq<Rule>, n: nat, name: string, i: nat) {
    && i < n <= |rules| && Limits(rules[i], name)
    && forall j :: i < j < n ==> !Limits(rules[j], name)
  }

  predicate Limits(rule: Rule, name: string) {
    rule.name == name && rule.action.RateLimit?
  }

  lemma LoadOne(limiters: map<string, Limiter>, rules: seq<Rule>, clock: nat -> real, n: nat, name: string)
    requires 0 < n <= |rules|
    ensures var before, after := Loaded(limiters, rules, clock, n - 1), Loaded(limiters, rules, clock, n);
      if Limits(rules[n - 1], name)
      then name in after && after[name] == Full(rules[n - 1].action.maxPerSecond, clock(n - 1))
      else (name in after <==> name in before) && (name in before ==> after[name] == before[name])
  {
  }

  lemma {:induction false} LoadedLast(limiters: map<string, Limiter>, rules: seq<Rule>, clock: nat -> real,
                                      n: nat, name: string, i: nat)
    requires n <= |rules| && LastLimit(rules, n, name, i)
    ensures var loaded := Loaded(limiters, rules, clock, n);
      name in loaded && loaded[name] == Full(rules[i].action.maxPerSecond, clock(i))
  {
    LoadOne(limiters, rules, clock, n, name);
    if i == n - 1 {
    } else {
      LoadedLast(limiters, rules, clock, n - 1, name, i);
    }
  }

  lemma {:induction false} LoadedOthers(limiters: map<string, Limiter>, rules: seq<Rule>, clock: nat -> real,
                                        n: nat, name: string)
    requires n <= |rules| && forall i :: 0 <= i < n ==> !Limits(rules[i], name)
    ensures var loaded := Loaded(limiters, rules, clock, n);
      (name in loaded <==> name in limiters) && (name in limiters ==> loaded[name] == limiters[name])
  {
    if n == 0 {
    } else {
      LoadOne(limiters, rules, clock, n, name);
      LoadedOthers(limiters, rules, clock, n - 1, name);
    }
  }

  /** A name with rate-limit rules has a full limiter with the limit of the last of them; the limiters of
      other names are as before. */
  lemma LoadedLimiters(limiters: map<string, Limiter>, rules: seq<Rule>, clock: nat -> real, n: nat, name: string)
    requires n <= |rules|
    ensures var loaded := Loaded(limiters, rules, clock, n);
      && (forall i: nat :: LastLimit(rules, n, name, i) ==>
            name in loaded && loaded[name] == Full(rules[i].action.maxPerSecond, clock(i)))
      && ((forall i :: 0 <= i < n ==> !Limits(rules[i], name)) ==>
            (name in loaded <==> name in limiters) && (name in limiters ==> loaded[name] == limiters[name]))
  {
    forall i: nat | LastLimit(rules, n, name, i)
      ensures name in Loaded(limiters, rules, clock, n)
      ensures Loaded(limiters, rules, clock, n)[name] == Full(rules[i].action.maxPerSecond, clock(i))
    {
      LoadedLast(limiters, rules, clock, n, name, i);
    }
    if forall i :: 0 <= i < n ==> !Limits(rules[i], name) {
      LoadedOthers(limiters, rules, clock, n, name);
    }
  }
}
