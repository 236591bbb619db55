/**
 * What a failed scan reports: the census of advertisers, the names that fit the 64-byte reason, and
 * the marks that say what is missing from it.
 */
module ScanNames {
  import opened Bytes
  import opened EapSemantics
  import Driver

  const ENTRY_MAX: nat := 128
  const REASON_MAX: nat := 64
  const PREFIX_MAX: nat := 28
  const QUOTE: Byte := 39

  function Named(named: nat, seen: nat): seq<Byte> {
    Ascii("no name match; " + Driver.Digits(named) + "/" + Driver.Digits(seen) + " named")
  }

  function Separator(): (s: seq<Byte>)
    ensures |s| == 2
  {
    Ascii(": ")
  }

  function Truncated(): (s: seq<Byte>)
    ensures |s| == 12
  {
    Ascii(" (truncated)")
  }

  function CensusFull(): (s: seq<Byte>)
    ensures |s| == 14
  {
    Ascii(" (census full)")
  }

  // ---- One entry, whole or not at all --------------------------------------------------------

  function Quoted(sep: seq<Byte>, name: seq<Byte>): seq<Byte> {
    sep + [QUOTE] + name + [QUOTE]
  }

  /** Room in the caller's budget, and in the buffer for the terminator behind it. */
  predicate HasRoom(bufLen: nat, maxLen: nat, used: nat, entry: nat) {
    && used + entry <= maxLen && used + entry + 1 <= bufLen && entry < ENTRY_MAX
  }

  /** `scan_seen_names_append`: the buffer gains the whole quoted name and a terminator, or nothing. */
  method Append(buf: array<Byte>, maxLen: nat, used: nat, sep: seq<Byte>, name: seq<Byte>)
    returns (ok: bool, used': nat)
    modifies buf
    ensures ok <==> HasRoom(buf.Length, maxLen, used, |Quoted(sep, name)|)
    ensures !ok ==> used' == used && buf[..] == old(buf[..])
    ensures ok ==> used' == used + |Quoted(sep, name)| && used' < buf.Length && buf[used'] == 0
                   && buf[..used'] == old(buf[..used]) + Quoted(sep, name)
                   && buf[used' + 1..] == old(buf[used' + 1..])
  {
    var budget := if maxLen > buf.Length then buf.Length else maxLen;
    if used > budget {
      return false, used;
    }
    var entry := Quoted(sep, name);
    if |entry| >= ENTRY_MAX || |entry| > budget - used || used + |entry| + 1 > buf.Length {
      return false, used;
    }
    var i := 0;
    while i < |entry|
      invariant i <= |entry|
      invariant buf[..used] == old(buf[..used]) && buf[used..used + i] == entry[..i]
      invariant buf[used + |entry| + 1..] == old(buf[used + |entry| + 1..])
    {
      buf[used + i] := entry[i];
      i := i + 1;
    }
    used' := used + |entry|;
    buf[used'] := 0;
    assert buf[..used'] == buf[..used] + buf[used..used + i];
    ok := true;
  }

  // ---- The list -------------------------------------------------------------------------------

  /** The names an advertiser gave; one that gave none has the empty name. */
  function Given(names: seq<seq<Byte>>): seq<seq<Byte>>
    decreases |names|
  {
    if names == [] then []
    else Given(names[..|names| - 1]) + if names[|names| - 1] == [] then [] else [names[|names| - 1]]
  }

  function ListSeparator(first: bool): seq<Byte> {
    if first then [] else Ascii(", ")
  }

  /** The first `k` names, quoted, with commas between them. */
  function Joined(names: seq<seq<Byte>>, k: nat): seq<Byte>
    requires k <= |names|
  {
    if k == 0 then [] else Joined(names, k - 1) + Quoted(ListSeparator(k == 1), names[k - 1])
  }

  lemma {:induction false} JoinedGrows(names: seq<seq<Byte>>, j: nat, k: nat)
    requires j <= k <= |names|
    ensures |Joined(names, j)| <= |Joined(names, k)|
    decreases k
  {
    if j < k {
      JoinedGrows(names, j, k - 1);
    }
  }

  lemma {:induction false} JoinedOfMore(names: seq<seq<Byte>>, more: seq<seq<Byte>>, k: nat)
    requires k <= |names|
    ensures Joined(names + more, k) == Joined(names, k)
    decreases k
  {
    if k > 0 {
      JoinedOfMore(names, more, k - 1);
    }
  }

  /** `k` is as many of the names as the budget takes. */
  predicate Longest(names: seq<seq<Byte>>, budget: nat, k: nat) {
    && k <= |names| && |Joined(names, k)| <= budget
    && (k < |names| ==> |Joined(names, k + 1)| > budget)
  }

  /** Exactly the prefixes of up to `k` names fit. */
  predicate FitsUpTo(names: seq<seq<Byte>>, budget: nat, k: nat) {
    forall j: nat | j <= |names| :: |Joined(names, j)| <= budget <==> j <= k
  }

  /** It is the one number of names such that no longer prefix fits and every shorter one does. */
  lemma LongestIsLongest(names: seq<seq<Byte>>, budget: nat, k: nat)
    requires k <= |names|
    ensures Longest(names, budget, k) <==> FitsUpTo(names, budget, k)
  {
    hide Joined;
    if FitsUpTo(names, budget, k) {
      assert |Joined(names, k)| <= budget;
      assert k < |names| ==> |Joined(names, k + 1)| > budget;
    }
    if Longest(names, budget, k) {
      forall j: nat | j <= |names|
        ensures |Joined(names, j)| <= budget <==> j <= k
      {
        if j <= k {
          JoinedGrows(names, j, k);
        } else {
          JoinedGrows(names, k + 1, j);
        }
      }
    }
  }

  /**
   * `scan_seen_names_summary`: the longest prefix of the names that fits, whole entries only, and
   * `truncated` exactly when a name is missing from it.
   */
  method Summary(names: seq<seq<Byte>>, maxLen: nat) returns (text: seq<Byte>, truncated: bool, ghost k: nat)
    requires maxLen <= REASON_MAX
    ensures Longest(Given(names), maxLen, k) && text == Joined(Given(names), k)
    ensures truncated <==> k < |Given(names)|
  {
    hide Quoted, Joined, Given;
    var summary := new Byte[REASON_MAX + 1];
    var used: nat := 0;
    var named: nat := 0;
    summary[0] := 0;
    truncated := false;
    k := 0;
    var i := 0;
    NothingGiven(names);
    while i < |names|
      invariant i <= |names| && !truncated && fresh(summary)
      invariant k == named == |Given(names[..i])| && used <= maxLen && used < summary.Length
      invariant summary[..used] == Joined(Given(names[..i]), named)
    {
      GivenStep(names, i);
      if names[i] != [] {
        ghost var before := Given(names[..i]);
        var sep := ListSeparator(named == 0);
        JoinedStep(before, names[i]);
        var ok, used' := Append(summary, maxLen, used, sep, names[i]);
        if !ok {
          truncated := true;
          GivenFront(names, i + 1, named);
          GivenFront(names, i + 1, named + 1);
          return summary[..used], truncated, named;
        }
        used := used';
        named := named + 1;
        k := named;
      }
      i := i + 1;
    }
    assert names[..i] == names;
    text := summary[..used];
  }

  lemma NothingGiven(names: seq<seq<Byte>>)
    ensures Given(names[..0]) == [] && Joined([], 0) == []
  {
  }

  lemma GivenStep(names: seq<seq<Byte>>, i: nat)
    requires i < |names|
    ensures Given(names[..i + 1]) == Given(names[..i]) + if names[i] == [] then [] else [names[i]]
    ensures names[i] == [] ==> Given(names[..i + 1]) == Given(names[..i])
  {
    assert names[..i + 1][..i] == names[..i];
  }

  lemma JoinedStep(before: seq<seq<Byte>>, name: seq<Byte>)
    ensures Joined(before + [name], |before|) == Joined(before, |before|)
    ensures Joined(before + [name], |before| + 1)
            == Joined(before, |before|) + Quoted(ListSeparator(|before| == 0), name)
  {
    JoinedOfMore(before, [name], |before|);
  }

  lemma {:induction false} GivenOfFront(names: seq<seq<Byte>>, i: nat)
    requires i <= |names|
    ensures Given(names[..i]) <= Given(names)
    decreases |names| - i
  {
    if i < |names| {
      assert names[..i + 1][..i] == names[..i];
      GivenOfFront(names, i + 1);
    } else {
      assert names[..i] == names;
    }
  }

  lemma GivenFront(names: seq<seq<Byte>>, i: nat, k: nat)
    requires i <= |names| && k <= |Given(names[..i])|
    ensures k <= |Given(names)| && Joined(Given(names), k) == Joined(Given(names[..i]), k)
  {
    GivenOfFront(names, i);
    var front := Given(names[..i]);
    JoinedOfMore(front, Given(names)[|front|..], k);
    assert front + Given(names)[|front|..] == Given(names);
  }

  // ---- The report --------------------------------------------------------------------------------

  /** What is left for names once the prefix and every mark that can be needed are set aside. */
  function NameBudget(overflowed: bool): nat {
    REASON_MAX - PREFIX_MAX - 2 - (12 + if overflowed then 14 else 0)
  }

  lemma DigitsLength(n: nat)
    requires n < 1000
    ensures |Driver.Digits(n)| <= 3
  {
    assert n / 10 < 100 && n / 10 / 10 < 10;
    assert Driver.Digits(n / 10 / 10) == ["0123456789"[n / 10 / 10]];
  }

  lemma PrefixLength(named: nat, seen: nat)
    requires named <= 256 && seen <= 256
    ensures |Named(named, seen)| <= PREFIX_MAX
  {
    DigitsLength(named);
    DigitsLength(seen);
  }

  /** The reason, before the outcome's buffer could cut it. */
  function Report(named: nat, seen: nat, text: seq<Byte>, truncated: bool, overflowed: bool): seq<Byte> {
    Named(named, seen) + (if text != [] then Separator() else []) + text
    + (if truncated then Truncated() else []) + (if overflowed then CensusFull() else [])
  }

  /** What a failed scan says: how many of the advertisers had names, the names if there are any, and both marks. */
  function Wording(named: nat, seen: nat, text: seq<Byte>, truncated: bool, overflowed: bool): seq<Byte> {
    var counts := Ascii("no name match; " + Driver.Digits(named) + "/" + Driver.Digits(seen) + " named");
    var names := if |text| == 0 then counts else counts + [58, 32] + text;
    var cut := if truncated then names + Ascii(" (truncated)") else names;
    if overflowed then cut + Ascii(" (census full)") else cut
  }

  lemma ReportIsWorded(named: nat, seen: nat, text: seq<Byte>, truncated: bool, overflowed: bool)
    ensures Report(named, seen, text, truncated, overflowed) == Wording(named, seen, text, truncated, overflowed)
  {
    hide Driver.Digits;
    assert Separator() == [58, 32];
  }

  /** Whatever names were seen, the whole report, marks included, fits the outcome's reason. */
  method FailedScan(names: seq<seq<Byte>>, overflowed: bool) returns (reason: seq<Byte>)
    requires |names| <= 256
    ensures |reason| <= REASON_MAX
    ensures exists k: nat :: k <= |Given(names)| && FitsUpTo(Given(names), if overflowed then 8 else 22, k)
                        && reason == Wording(|Given(names)|, |names|, Joined(Given(names), k),
                                             k < |Given(names)|, overflowed)
  {
    hide Named, Joined, Wording, Longest, FitsUpTo;
    var named := CountNamed(names);
    GivenIsFewer(names);
    PrefixLength(named, |names|);
    var text, truncated, k := Summary(names, NameBudget(overflowed));
    reason := Report(named, |names|, text, truncated, overflowed);
    LongestIsWithin(Given(names), NameBudget(overflowed), k);
    LongestIsLongest(Given(names), NameBudget(overflowed), k);
    ReportIsWorded(named, |names|, text, truncated, overflowed);
  }

  lemma LongestIsWithin(names: seq<seq<Byte>>, budget: nat, k: nat)
    requires Longest(names, budget, k)
    ensures k <= |names| && |Joined(names, k)| <= budget
  {
  }

  lemma {:induction false} GivenIsFewer(names: seq<seq<Byte>>)
    ensures |Given(names)| <= |names|
    decreases |names|
  {
    if names != [] {
      GivenIsFewer(names[..|names| - 1]);
    }
  }

  /** `scan_seen_named_count`. */
  method CountNamed(names: seq<seq<Byte>>) returns (named: nat)
    ensures named == |Given(names)|
  {
    named := 0;
    var i := 0;
    assert names[..0] == [];
    while i < |names|
      invariant i <= |names| && named == |Given(names[..i])|
    {
      assert names[..i + 1][..i] == names[..i];
      if names[i] != [] {
        named := named + 1;
      }
      i := i + 1;
    }
    assert names[..i] == names;
  }

  // ---- The census ----------------------------------------------------------------------------------

  type Address = seq<Byte>

  const CENSUS_MAX: nat := 256

  /** The recorded advertisers; the C length is one byte. */
  datatype Census = Census(seen: seq<Address>, overflowed: bool)

  /** Another advertiser: the length wraps to 0 before it can ever reach the capacity it is held to. */
  function Recorded(c: Census, a: Address): Census {
    if a in c.seen then c
    else if |c.seen| >= CENSUS_MAX then c.(overflowed := true)
    else if |c.seen| + 1 == CENSUS_MAX then c.(seen := [])
    else c.(seen := c.seen + [a])
  }

  class Scanner {
    const addrs: array<Address>
    var len: Byte
    var overflowed: bool

    constructor ()
      ensures Valid() && State() == Census([], false)
    {
      addrs := new Address[CENSUS_MAX](_ => []);
      len, overflowed := 0, false;
    }

    predicate Valid()
      reads this
    {
      addrs.Length == CENSUS_MAX
    }

    ghost function State(): Census
      requires Valid()
      reads this, addrs
    {
      Census(addrs[..len], overflowed)
    }

    /** `scan_seen_entry_for`: the advertiser's slot, found or new. */
    method EntryFor(a: Address) returns (slot: Option<nat>)
      requires Valid()
      modifies this, addrs
      ensures Valid() && State() == Recorded(old(State()), a)
      ensures slot.Some? && slot.value < CENSUS_MAX && addrs[slot.value] == a
    {
      var i := 0;
      while i < len as nat
        invariant i <= len && forall j | 0 <= j < i :: addrs[j] != a
      {
        if addrs[i] == a {
          return Some(i);
        }
        i := i + 1;
      }
      var at: nat := len;
      addrs[at] := a;
      len := (len + 1) % TWO_8;
      slot := Some(at);
    }
  }

  function CensusOf(addrs: seq<Address>): Census
    decreases |addrs|
  {
    if addrs == [] then Census([], false)
    else Recorded(CensusOf(addrs[..|addrs| - 1]), addrs[|addrs| - 1])
  }

  /** The different advertisers heard, however often each was. */
  function Heard(addrs: seq<Address>): set<Address> {
    set a | a in addrs
  }

  predicate Distinct(addrs: seq<Address>) {
    forall i, j | 0 <= i < j < |addrs| :: addrs[i] != addrs[j]
  }

  lemma {:induction false} DistinctCount(addrs: seq<Address>)
    requires Distinct(addrs)
    ensures |Heard(addrs)| == |addrs|
    decreases |addrs|
  {
    if addrs != [] {
      var front, last := addrs[..|addrs| - 1], addrs[|addrs| - 1];
      DistinctCount(front);
      assert addrs == front + [last];
      assert Heard(addrs) == Heard(front) + {last};
    }
  }

  lemma FewerHeard(a: set<Address>, b: set<Address>)
    requires a <= b
    ensures |a| <= |b| && (|a| == |b| ==> a == b)
  {
    assert b == a + (b - a);
    assert |b| == |a| + |b - a|;
    if |a| == |b| {
      assert b - a == {};
    }
  }

  /** The next advertiser, heard before or not, against what the census holds of those before. */
  lemma HeardNext(front: seq<Address>, last: Address)
    ensures Heard(front + [last]) == Heard(front) + {last}
    ensures |Heard(front + [last])| == |Heard(front)| + if last in front then 0 else 1
  {
    assert Heard(front + [last]) == Heard(front) + {last};
    if last in front {
      assert Heard(front) + {last} == Heard(front);
    }
  }

  /**
   * Whatever is heard, and however often: the census never flags an overflow and never holds 256, and
   * while fewer than 256 different advertisers have been heard it holds exactly those.
   */
  lemma {:induction false} CensusKeeps(addrs: seq<Address>)
    ensures var c := CensusOf(addrs);
            && !c.overflowed && |c.seen| < 256 && Distinct(c.seen)
            && (|Heard(addrs)| < 256 ==> Heard(c.seen) == Heard(addrs))
    decreases |addrs|
  {
    hide Recorded, Heard, Distinct;
    if addrs == [] {
      NothingHeard();
    } else {
      var front, last := addrs[..|addrs| - 1], addrs[|addrs| - 1];
      assert addrs == front + [last];
      CensusKeeps(front);
      RecordedKeeps(front, CensusOf(front), last);
    }
  }

  lemma NothingHeard()
    ensures Distinct([]) && Heard([]) == {}
  {
  }

  /** One advertiser more, on a census that keeps. */
  lemma RecordedKeeps(front: seq<Address>, c: Census, last: Address)
    requires !c.overflowed && |c.seen| < CENSUS_MAX && Distinct(c.seen)
    requires |Heard(front)| < CENSUS_MAX ==> Heard(c.seen) == Heard(front)
    ensures var c', heard := Recorded(c, last), Heard(front + [last]);
            && !c'.overflowed && |c'.seen| < CENSUS_MAX && Distinct(c'.seen)
            && (|heard| < CENSUS_MAX ==> Heard(c'.seen) == heard)
  {
    HeardNext(front, last);
    DistinctCount(c.seen);
    HeardNext(c.seen, last);
    assert last in c.seen <==> last in Heard(c.seen);
    assert last in front <==> last in Heard(front);
  }

  /** It holds every advertiser heard exactly while fewer than 256 different ones were. */
  lemma CensusHoldsAll(addrs: seq<Address>)
    ensures !CensusOf(addrs).overflowed
    ensures (forall a | a in addrs :: a in CensusOf(addrs).seen) <==> |Heard(addrs)| < 256
  {
    hide CensusOf;
    CensusKeeps(addrs);
    var seen := CensusOf(addrs).seen;
    DistinctCount(seen);
    if |Heard(addrs)| < CENSUS_MAX {
      forall a | a in addrs
        ensures a in seen
      {
        assert a in Heard(addrs) && a in Heard(seen);
      }
    } else if forall a | a in addrs :: a in seen {
      FewerHeard(Heard(addrs), Heard(seen));
    }
  }

  /** How many had been heard when the census last emptied itself: at the 256th different one since the time before. */
  function LastEmptied(addrs: seq<Address>): (k: nat)
    ensures k <= |addrs|
    decreases |addrs|
  {
    if addrs == [] then 0
    else
      var k := LastEmptied(addrs[..|addrs| - 1]);
      if |Heard(addrs[k..])| == CENSUS_MAX then |addrs| else k
  }

  /** At any time the census holds the advertisers heard since it last emptied itself, each once, and no other. */
  lemma {:induction false} CensusForgets(addrs: seq<Address>)
    ensures var c := CensusOf(addrs);
            !c.overflowed && Distinct(c.seen) && Heard(c.seen) == Heard(addrs[LastEmptied(addrs)..])
            && |c.seen| < CENSUS_MAX
    decreases |addrs|
  {
    hide Recorded, Heard, Distinct;
    if addrs == [] {
      NothingHeard();
    } else {
      var front, last := addrs[..|addrs| - 1], addrs[|addrs| - 1];
      var k := LastEmptied(front);
      CensusForgets(front);
      assert addrs[k..] == front[k..] + [last] && addrs[|addrs|..] == [];
      RecordedSince(front[k..], CensusOf(front), last);
      NothingHeard();
    }
  }

  /** One advertiser more, on a census of those heard `since`. */
  lemma RecordedSince(since: seq<Address>, c: Census, last: Address)
    requires !c.overflowed && Distinct(c.seen) && Heard(c.seen) == Heard(since) && |c.seen| < CENSUS_MAX
    ensures var c', heard := Recorded(c, last), Heard(since + [last]);
            if |heard| == CENSUS_MAX then c' == Census([], false)
            else !c'.overflowed && Distinct(c'.seen) && Heard(c'.seen) == heard && |c'.seen| < CENSUS_MAX
  {
    HeardNext(since, last);
    DistinctCount(c.seen);
    HeardNext(c.seen, last);
    assert last in c.seen <==> last in Heard(c.seen);
    assert last in since <==> last in Heard(since);
  }
}
