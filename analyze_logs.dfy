/**
 * The security-log analyser (scripts/analyze-logs.ts): parses the log that
 * src/lib/security-logger.ts appends to, and summarises it.
 *
 * `JSON.parse` and `JSON.stringify` are parameters; reading the file is the
 * `content` argument (`None` when the file does not exist).
 */
module AnalyzeLogs {
  import opened Common

  datatype Severity = Low | Medium | High | Critical

  /** One logged event; `kind` is the JSON field `type`. The free-form `details` object is not modelled. */
  datatype SecurityEvent = SecurityEvent(
    kind: string,
    timestamp: string,
    severity: Severity,
    ip: string,
    userAgent: Option<string>,
    userId: Option<string>,
    status: Option<string>)

  const Separator := "\n\n"
  const SuspiciousThreshold := 5
  const RecentCount := 10

  function SeverityName(s: Severity): string
  {
    match s
    case Low => "LOW"
    case Medium => "MEDIUM"
    case High => "HIGH"
    case Critical => "CRITICAL"
  }

  // ------------------------------------------------------------ parsing

  /** The blocks between blank-line separators that are not blank after `trim()`. */
  function Blocks(content: string): seq<string>
  {
    Filter(SplitOn(content, Separator), (b: string) => !IsBlank(b))
  }

  /** The events of the blocks that parse, in order; the others are skipped. */
  function ParsedEvents(blocks: seq<string>, parse: string -> Option<SecurityEvent>): (events: seq<SecurityEvent>)
    ensures |events| <= |blocks|
  {
    if blocks == [] then []
    else
      var rest := ParsedEvents(blocks[1..], parse);
      match parse(blocks[0])
      case None => rest
      case Some(e) => [e] + rest
  }

  lemma {:induction false} ParsedEventsAppend(blocks: seq<string>, b: string, parse: string -> Option<SecurityEvent>)
    ensures ParsedEvents(blocks + [b], parse)
      == ParsedEvents(blocks, parse) + (if parse(b).Some? then [parse(b).value] else [])
  {
    if blocks == [] {
      assert blocks + [b] == [b];
    } else {
      assert (blocks + [b])[1..] == blocks[1..] + [b];
      ParsedEventsAppend(blocks[1..], b, parse);
    }
  }

  /** `parseLogFile`: every block that parses, in file order; no file gives no events. */
  method ParseLogFile(content: Option<string>, parse: string -> Option<SecurityEvent>) returns (events: seq<SecurityEvent>)
    ensures content.None? ==> events == []
    ensures content.Some? ==> events == ParsedEvents(Blocks(content.value), parse)
  {
    if content.None? {
      return [];
    }
    var blocks := Blocks(content.value);
    events := [];
    var i := 0;
    while i < |blocks|
      invariant 0 <= i <= |blocks|
      invariant events == ParsedEvents(blocks[..i], parse)
    {
      var parsed := parse(blocks[i]);
      ParsedEventsAppend(blocks[..i], blocks[i], parse);
      assert blocks[..i + 1] == blocks[..i] + [blocks[i]];
      if parsed.Some? {
        events := events + [parsed.value];
      }
      i := i + 1;
    }
    assert blocks[..i] == blocks;
  }

  // ----------------------------------------------------- framing round trip

  /** A text the separator cannot cut: no blank line inside and no newline at the end. */
  predicate Unbroken(s: string)
  {
    (forall k | 0 <= k < |s| - 1 :: !(s[k] == '\n' && s[k + 1] == '\n'))
    && (s == [] || s[|s| - 1] != '\n')
  }

  lemma SeparatorAt(s: string)
    requires |s| >= 2
    ensures StartsWith(s, Separator) <==> s[0] == '\n' && s[1] == '\n'
  {
    assert s[..2][0] == s[0] && s[..2][1] == s[1];
    if s[0] == '\n' && s[1] == '\n' {
      assert s[..2] == Separator;
    }
  }

  lemma {:induction false} SplitOnFramed(a: string, b: string)
    requires Unbroken(a)
    ensures SplitOn(a + Separator + b, Separator) == [a] + SplitOn(b, Separator)
    decreases |a|
  {
    var s := a + Separator + b;
    if a == [] {
      assert s == Separator + b;
      assert StartsWith(s, Separator);
      assert s[|Separator|..] == b;
    } else {
      assert !StartsWith(s, Separator) by {
        assert s[0] == a[0];
        assert s[1] == if |a| >= 2 then a[1] else '\n';
        SeparatorAt(s);
      }
      var a' := a[1..];
      assert Unbroken(a') by {
        forall k | 0 <= k < |a'| - 1 ensures !(a'[k] == '\n' && a'[k + 1] == '\n') {
          assert a'[k] == a[k + 1] && a'[k + 1] == a[k + 2];
        }
      }
      assert s[1..] == a' + Separator + b;
      SplitOnFramed(a', b);
      assert [a[0]] + a' == a;
    }
  }

  /** What the logger has appended for these events: each one serialised, followed by a blank line. */
  function LogText(events: seq<SecurityEvent>, stringify: SecurityEvent -> string): string
  {
    if events == [] then "" else stringify(events[0]) + Separator + LogText(events[1..], stringify)
  }

  function Serialised(events: seq<SecurityEvent>, stringify: SecurityEvent -> string): (r: seq<string>)
    ensures |r| == |events|
    ensures forall i | 0 <= i < |events| :: r[i] == stringify(events[i])
  {
    if events == [] then [] else [stringify(events[0])] + Serialised(events[1..], stringify)
  }

  /** The serialiser writes texts the framing can carry, and `JSON.parse` reads them back. */
  ghost predicate FramingSound(stringify: SecurityEvent -> string, parse: string -> Option<SecurityEvent>)
  {
    forall e :: Unbroken(stringify(e)) && !IsBlank(stringify(e)) && parse(stringify(e)) == Some(e)
  }

  lemma {:induction false} SplitLogText(events: seq<SecurityEvent>, stringify: SecurityEvent -> string)
    requires forall e :: Unbroken(stringify(e))
    ensures SplitOn(LogText(events, stringify), Separator) == Serialised(events, stringify) + [""]
  {
    if events != [] {
      SplitOnFramed(stringify(events[0]), LogText(events[1..], stringify));
      SplitLogText(events[1..], stringify);
    }
  }

  lemma {:induction false} FilterSerialised(events: seq<SecurityEvent>, stringify: SecurityEvent -> string)
    requires forall e :: !IsBlank(stringify(e))
    ensures Filter(Serialised(events, stringify), (b: string) => !IsBlank(b)) == Serialised(events, stringify)
  {
    if events != [] {
      FilterSerialised(events[1..], stringify);
    }
  }

  lemma {:induction false} ParseSerialised(events: seq<SecurityEvent>, stringify: SecurityEvent -> string, parse: string -> Option<SecurityEvent>)
    requires FramingSound(stringify, parse)
    ensures ParsedEvents(Serialised(events, stringify), parse) == events
  {
    if events != [] {
      ParseSerialised(events[1..], stringify, parse);
      assert Serialised(events, stringify)[1..] == Serialised(events[1..], stringify);
    }
  }

  /** Reading back a log the logger wrote yields exactly the logged events, in order. */
  lemma {:induction false} LogRoundTrip(events: seq<SecurityEvent>, stringify: SecurityEvent -> string, parse: string -> Option<SecurityEvent>)
    requires FramingSound(stringify, parse)
    ensures ParsedEvents(Blocks(LogText(events, stringify)), parse) == events
  {
    var blank := (b: string) => !IsBlank(b);
    SplitLogText(events, stringify);
    FilterConcat(Serialised(events, stringify), [""], blank);
    assert Filter([""], blank) == [];
    FilterSerialised(events, stringify);
    assert Blocks(LogText(events, stringify)) == Serialised(events, stringify);
    ParseSerialised(events, stringify, parse);
  }

  // ------------------------------------------------------------ counting

  /** Number of events whose key is `k`. */
  function Occurrences(events: seq<SecurityEvent>, key: SecurityEvent -> string, k: string): nat
  {
    CountWhere(events, (e: SecurityEvent) => key(e) == k)
  }

  lemma OccurrencesCons(events: seq<SecurityEvent>, key: SecurityEvent -> string, k: string)
    requires events != []
    ensures Occurrences(events, key, k) == (if key(events[0]) == k then 1 else 0) + Occurrences(events[1..], key, k)
  {
  }

  function Keys(events: seq<SecurityEvent>, key: SecurityEvent -> string): set<string>
  {
    set i | 0 <= i < |events| :: key(events[i])
  }

  /**
   * The counters are plain objects (`{}`), which already inherit the members of
   * `Object.prototype`. Reading one of the inherited methods gives a function, and
   * `(fn || 0) + 1` is that function's source text followed by the digit `1`.
   */
  const InheritedMethods: set<string> := {
    "constructor", "hasOwnProperty", "isPrototypeOf", "propertyIsEnumerable", "toLocaleString",
    "toString", "valueOf", "__defineGetter__", "__defineSetter__", "__lookupGetter__", "__lookupSetter__"}

  /** Assigning a number or a string to `__proto__` is ignored, so this name never gets an entry. */
  const ProtoAccessor := "__proto__"

  /** The names a fresh `{}` answers without owning them. */
  predicate Inherited(k: string)
  {
    k in InheritedMethods || k == ProtoAccessor
  }

  /** A counter's value: a number, or an inherited function's source text followed by `ones` digits `1`. */
  datatype Tally = Num(n: nat) | FnText(ones: nat)

  /** What `k` holds after `n` increments when `n > 0`. */
  function TallyOf(k: string, n: nat): Tally
  {
    if k in InheritedMethods then FnText(n) else Num(n)
  }

  /** `acc[k] = (acc[k] || 0) + 1`, given what `acc` owns under `k`. */
  function Increment(own: Option<Tally>, k: string): Tally
  {
    match own
    case Some(Num(n)) => Num(n + 1)
    case Some(FnText(m)) => FnText(m + 1)
    case None => if k in InheritedMethods then FnText(1) else Num(1)
  }

  /**
   * The `reduce` of `countByType` / `countBySeverity`: one entry per key that occurs other
   * than `__proto__`, holding its number of events (as text after an inherited method's source).
   */
  method CountBy(events: seq<SecurityEvent>, key: SecurityEvent -> string) returns (counts: map<string, Tally>)
    ensures counts.Keys == Keys(events, key) - {ProtoAccessor}
    ensures forall k | k in counts :: counts[k] == TallyOf(k, Occurrences(events, key, k))
  {
    counts := map[];
    var i := 0;
    while i < |events|
      invariant 0 <= i <= |events|
      invariant counts.Keys == Keys(events[..i], key) - {ProtoAccessor}
      invariant forall k | k in counts :: counts[k] == TallyOf(k, Occurrences(events[..i], key, k))
      invariant forall k | k !in counts && k != ProtoAccessor :: Occurrences(events[..i], key, k) == 0
    {
      var e := events[i];
      var k := key(e);
      if k != ProtoAccessor {
        var own := if k in counts then Some(counts[k]) else None;
        counts := counts[k := Increment(own, k)];
      }
      assert events[..i + 1] == events[..i] + [e];
      forall k' ensures Occurrences(events[..i + 1], key, k') == Occurrences(events[..i], key, k') + (if key(e) == k' then 1 else 0) {
        CountWhereAppend(events[..i], e, (x: SecurityEvent) => key(x) == k');
      }
      i := i + 1;
    }
    assert events[..i] == events;
  }

  /** The counts of the keys `ks` added up, as a report that lists every entry of the count map sums them. */
  function SumOver(ks: seq<string>, events: seq<SecurityEvent>, key: SecurityEvent -> string): nat
  {
    if ks == [] then 0 else Occurrences(events, key, ks[0]) + SumOver(ks[1..], events, key)
  }

  /** How many entries of `ks` are `k`. */
  function Hits(ks: seq<string>, k: string): nat
  {
    if ks == [] then 0 else (if ks[0] == k then 1 else 0) + Hits(ks[1..], k)
  }

  lemma {:induction false} SumOverNoEvents(ks: seq<string>, key: SecurityEvent -> string)
    ensures SumOver(ks, [], key) == 0
  {
    if ks != [] {
      SumOverNoEvents(ks[1..], key);
    }
  }

  lemma {:induction false} SumOverCons(ks: seq<string>, events: seq<SecurityEvent>, key: SecurityEvent -> string)
    requires events != []
    ensures SumOver(ks, events, key) == SumOver(ks, events[1..], key) + Hits(ks, key(events[0]))
  {
    if ks != [] {
      OccurrencesCons(events, key, ks[0]);
      SumOverCons(ks[1..], events, key);
    }
  }

  lemma {:induction false} DistinctHits(ks: seq<string>, k: string)
    requires forall i, j | 0 <= i < j < |ks| :: ks[i] != ks[j]
    ensures Hits(ks, k) == if k in ks then 1 else 0
  {
    if ks != [] {
      DistinctHits(ks[1..], k);
      assert forall j | 0 <= j < |ks[1..]| :: ks[1..][j] == ks[j + 1];
      assert k in ks <==> ks[0] == k || k in ks[1..] by {
        assert ks == [ks[0]] + ks[1..];
      }
    }
  }

  /**
   * The counts of `countByType` / `countBySeverity` add up to the number of events: summed
   * over any list of the keys, without repeats, that covers every event's key.
   */
  lemma {:induction false} CountsAddUp(events: seq<SecurityEvent>, key: SecurityEvent -> string, ks: seq<string>)
    requires forall i, j | 0 <= i < j < |ks| :: ks[i] != ks[j]
    requires forall i | 0 <= i < |events| :: key(events[i]) in ks
    ensures SumOver(ks, events, key) == |events|
    decreases |events|
  {
    if events == [] {
      SumOverNoEvents(ks, key);
    } else {
      SumOverCons(ks, events, key);
      DistinctHits(ks, key(events[0]));
      CountsAddUp(events[1..], key, ks);
    }
  }

  function KindOf(e: SecurityEvent): string
  {
    e.kind
  }

  function SeverityKey(e: SecurityEvent): string
  {
    SeverityName(e.severity)
  }

  /** `countByType`. */
  method CountByType(events: seq<SecurityEvent>) returns (counts: map<string, Tally>)
    ensures counts.Keys == Keys(events, KindOf) - {ProtoAccessor}
    ensures forall k | k in counts :: counts[k] == TallyOf(k, Occurrences(events, KindOf, k))
  {
    counts := CountBy(events, KindOf);
  }

  /** No severity is named like a member of `Object.prototype`. */
  lemma SeverityNotInherited(s: Severity)
    ensures !Inherited(SeverityName(s))
  {
  }

  /** `countBySeverity`: severity names are never inherited, so every count is a number. */
  method CountBySeverity(events: seq<SecurityEvent>) returns (counts: map<string, Tally>)
    ensures counts.Keys == Keys(events, SeverityKey)
    ensures forall k | k in counts :: counts[k] == Num(Occurrences(events, SeverityKey, k))
  {
    counts := CountBy(events, SeverityKey);
    forall k | k in Keys(events, SeverityKey) ensures !Inherited(k) {
      var i :| 0 <= i < |events| && SeverityKey(events[i]) == k;
      SeverityNotInherited(events[i].severity);
    }
  }

  /** `bySeverity[severity] || 0`. */
  function CountOrZero(counts: map<string, Tally>, k: string): Tally
  {
    if k in counts then counts[k] else Num(0)
  }

  /** Each event has one severity, so the four counts the report prints add up to the number of events. */
  lemma {:induction false} SeverityCountsAddUp(events: seq<SecurityEvent>)
    ensures Occurrences(events, SeverityKey, "LOW") + Occurrences(events, SeverityKey, "MEDIUM")
      + Occurrences(events, SeverityKey, "HIGH") + Occurrences(events, SeverityKey, "CRITICAL") == |events|
  {
    if events != [] {
      SeverityCountsAddUp(events[1..]);
      OccurrencesCons(events, SeverityKey, "LOW");
      OccurrencesCons(events, SeverityKey, "MEDIUM");
      OccurrencesCons(events, SeverityKey, "HIGH");
      OccurrencesCons(events, SeverityKey, "CRITICAL");
    }
  }

  /** Reading a severity with the report's default of 0 gives its number of events, present or not. */
  lemma {:induction false} CountOrZeroIsOccurrences(events: seq<SecurityEvent>, counts: map<string, Tally>, k: string)
    requires counts.Keys == Keys(events, SeverityKey)
    requires forall k | k in counts :: counts[k] == Num(Occurrences(events, SeverityKey, k))
    ensures CountOrZero(counts, k) == Num(Occurrences(events, SeverityKey, k))
    decreases |events|
  {
    if k !in counts {
      NoKeyNoOccurrence(events, SeverityKey, k);
    }
  }

  lemma {:induction false} NoKeyNoOccurrence(events: seq<SecurityEvent>, key: SecurityEvent -> string, k: string)
    requires k !in Keys(events, key)
    ensures Occurrences(events, key, k) == 0
  {
    if events != [] {
      assert key(events[0]) in Keys(events, key);
      assert Keys(events[1..], key) <= Keys(events, key) by {
        forall x | x in Keys(events[1..], key) ensures x in Keys(events, key) {
          var i :| 0 <= i < |events[1..]| && key(events[1..][i]) == x;
          assert key(events[i + 1]) == x;
        }
      }
      NoKeyNoOccurrence(events[1..], key, k);
    }
  }

  // ------------------------------------------------------------ filters

  /** The filter of `getFailedLogins`, with JavaScript's precedence: `&&` binds tighter than `||`. */
  predicate IsFailedLogin(e: SecurityEvent)
  {
    e.kind == "FAILED_LOGIN" || e.kind == "LOGIN_FAILURE" || (e.kind == "LOGIN_ATTEMPT" && e.status == Some("FAILED"))
  }

  predicate IsHighSeverity(e: SecurityEvent)
  {
    e.severity == High || e.severity == Critical
  }

  /** `getFailedLogins`: exactly the failed-login events, in log order. */
  function FailedLogins(events: seq<SecurityEvent>): (r: seq<SecurityEvent>)
    ensures forall e :: e in r <==> e in events && IsFailedLogin(e)
    ensures |r| == CountWhere(events, IsFailedLogin)
    ensures |events| == 1 ==> r == (if IsFailedLogin(events[0]) then events else [])
  {
    var r := Filter(events, IsFailedLogin);
    forall e ensures e in r <==> e in events && IsFailedLogin(e) {
      FilterMembership(events, IsFailedLogin, e);
    }
    FilterLength(events, IsFailedLogin);
    r
  }

  /** `getHighSeverityEvents`: exactly the HIGH and CRITICAL events, in log order. */
  function HighSeverityEvents(events: seq<SecurityEvent>): (r: seq<SecurityEvent>)
    ensures forall e :: e in r <==> e in events && IsHighSeverity(e)
    ensures |r| == CountWhere(events, IsHighSeverity)
    ensures |events| == 1 ==> r == (if IsHighSeverity(events[0]) then events else [])
  {
    var r := Filter(events, IsHighSeverity);
    forall e ensures e in r <==> e in events && IsHighSeverity(e) {
      FilterMembership(events, IsHighSeverity, e);
    }
    FilterLength(events, IsHighSeverity);
    r
  }

  /** The failed logins of a longer log are those of its first part followed by those of the rest, so the log order is kept. */
  lemma FailedLoginsConcat(a: seq<SecurityEvent>, b: seq<SecurityEvent>)
    ensures FailedLogins(a + b) == FailedLogins(a) + FailedLogins(b)
  {
    FilterConcat(a, b, IsFailedLogin);
  }

  /** The same for the HIGH and CRITICAL events. */
  lemma HighSeverityConcat(a: seq<SecurityEvent>, b: seq<SecurityEvent>)
    ensures HighSeverityEvents(a + b) == HighSeverityEvents(a) + HighSeverityEvents(b)
  {
    FilterConcat(a, b, IsHighSeverity);
  }

  /** An attempt logged with `LOGIN_ATTEMPT` counts as failed only with status `FAILED`, while `LOGIN_FAILURE` always does. */
  lemma LoginAttemptNeedsFailedStatus(e: SecurityEvent)
    ensures e.kind == "LOGIN_ATTEMPT" ==> (IsFailedLogin(e) <==> e.status == Some("FAILED"))
    ensures e.kind == "LOGIN_FAILURE" ==> IsFailedLogin(e)
  {
  }

  // ------------------------------------------------------ suspicious IPs

  predicate IsSuspicious(e: SecurityEvent)
  {
    Contains(e.kind, "FAILED") || Contains(e.kind, "ERROR") || e.severity == High || e.severity == Critical
  }

  function IpOf(e: SecurityEvent): string
  {
    e.ip
  }

  /** Number of suspicious events from `ip`. */
  function SuspiciousCount(events: seq<SecurityEvent>, ip: string): nat
  {
    CountWhere(events, (e: SecurityEvent) => IsSuspicious(e) && e.ip == ip)
  }

  lemma {:induction false} OccurrencesOfFilter(events: seq<SecurityEvent>, ip: string)
    ensures Occurrences(Filter(events, IsSuspicious), IpOf, ip) == SuspiciousCount(events, ip)
  {
    if events != [] {
      OccurrencesOfFilter(events[1..], ip);
      var rest := Filter(events[1..], IsSuspicious);
      if IsSuspicious(events[0]) {
        assert Filter(events, IsSuspicious) == [events[0]] + rest;
        assert ([events[0]] + rest)[1..] == rest;
        OccurrencesCons([events[0]] + rest, IpOf, ip);
      } else {
        assert Filter(events, IsSuspicious) == rest;
      }
    }
  }

  /**
   * `getSuspiciousIPs(events, threshold)`: every address with at least one and at least
   * `threshold` suspicious events, with its number of them. An address named like a member
   * of `Object.prototype` is never reported: its counter is text, which `count >= threshold`
   * reads as `NaN`, or it has no entry at all.
   */
  method SuspiciousIps(events: seq<SecurityEvent>, threshold: int) returns (r: map<string, nat>)
    ensures forall ip :: ip in r <==> !Inherited(ip) && SuspiciousCount(events, ip) > 0 && SuspiciousCount(events, ip) >= threshold
    ensures forall ip | ip in r :: r[ip] == SuspiciousCount(events, ip)
  {
    var suspicious := Filter(events, IsSuspicious);
    var ipCounts := CountBy(suspicious, IpOf);
    r := map ip | ip in ipCounts && ipCounts[ip].Num? && ipCounts[ip].n >= threshold :: ipCounts[ip].n;
    forall ip ensures ip in r <==> !Inherited(ip) && SuspiciousCount(events, ip) > 0 && SuspiciousCount(events, ip) >= threshold {
      OccurrencesOfFilter(events, ip);
      if ip !in ipCounts {
        if ip != ProtoAccessor {
          NoKeyNoOccurrence(suspicious, IpOf, ip);
        }
      } else {
        var i :| 0 <= i < |suspicious| && IpOf(suspicious[i]) == ip;
        OccurrencesPositive(suspicious, IpOf, i);
      }
    }
    forall ip | ip in r ensures r[ip] == SuspiciousCount(events, ip) {
      OccurrencesOfFilter(events, ip);
    }
  }

  /** The report's call `getSuspiciousIPs(events)` with the default threshold: addresses with five or more suspicious events. */
  method ReportedSuspiciousIps(events: seq<SecurityEvent>) returns (r: map<string, nat>)
    ensures forall ip :: ip in r <==> !Inherited(ip) && SuspiciousCount(events, ip) >= SuspiciousThreshold
    ensures forall ip | ip in r :: r[ip] == SuspiciousCount(events, ip) && r[ip] >= 5
  {
    r := SuspiciousIps(events, SuspiciousThreshold);
  }

  lemma {:induction false} OccurrencesPositive(xs: seq<SecurityEvent>, key: SecurityEvent -> string, i: int)
    requires 0 <= i < |xs|
    ensures Occurrences(xs, key, key(xs[i])) > 0
  {
    OccurrencesCons(xs, key, key(xs[i]));
    if i > 0 {
      OccurrencesPositive(xs[1..], key, i - 1);
    }
  }

  /**
   * The report lists the most recent failed logins (`slice(-10)`): at most ten, all failed
   * logins, and once the newer part `b` of the log holds ten of them, nothing older shows.
   */
  lemma RecentFailedLogins(a: seq<SecurityEvent>, b: seq<SecurityEvent>)
    ensures |LastN(FailedLogins(a + b), RecentCount)| == Min(|FailedLogins(a + b)|, RecentCount)
    ensures forall e | e in LastN(FailedLogins(a + b), RecentCount) :: IsFailedLogin(e)
    ensures |FailedLogins(b)| >= RecentCount ==> LastN(FailedLogins(a + b), RecentCount) == LastN(FailedLogins(b), RecentCount)
  {
    FailedLoginsConcat(a, b);
  }

  /** The same `slice(-10)` of the HIGH and CRITICAL events. */
  lemma RecentHighSeverity(a: seq<SecurityEvent>, b: seq<SecurityEvent>)
    ensures |LastN(HighSeverityEvents(a + b), RecentCount)| == Min(|HighSeverityEvents(a + b)|, RecentCount)
    ensures forall e | e in LastN(HighSeverityEvents(a + b), RecentCount) :: IsHighSeverity(e)
    ensures |HighSeverityEvents(b)| >= RecentCount ==>
      LastN(HighSeverityEvents(a + b), RecentCount) == LastN(HighSeverityEvents(b), RecentCount)
  {
    HighSeverityConcat(a, b);
  }

  function Min(x: int, y: int): int
  {
    if x < y then x else y
  }
}
