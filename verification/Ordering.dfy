/** examples/ordering.php: the checker's counters and the publisher that retries. */
module Ordering {
  import opened Base
  import opened Endpoints
  import opened CHeap
  import opened Marshal
  import opened Receivers

  // ---------------------------------------------------------------- the checker

  /** `$lastSeq` when message `i` arrives. */
  function LastSeq(a: seq<PhpInt>, i: nat): PhpInt
    requires i <= |a|
  {
    if i == 0 then -1 else a[i - 1]
  }

  function Dups(a: seq<PhpInt>): nat {
    if a == [] then 0
    else var i := |a| - 1; Dups(a[..i]) + (if a[i] <= LastSeq(a, i) then 1 else 0)
  }

  function Gaps(a: seq<PhpInt>): nat {
    if a == [] then 0
    else
      var i := |a| - 1;
      Gaps(a[..i]) + (if a[i] > LastSeq(a, i) + 1 && LastSeq(a, i) >= 0 then 1 else 0)
  }

  function SeqNumbers(ms: seq<Message>): seq<PhpInt> {
    seq(|ms|, i requires 0 <= i < |ms| => ToPhpInt(ms[i].seqNo))
  }

  /** The loop's variables. */
  datatype Counters = Counters(received: nat, gaps: nat, dup: nat, lastSeq: PhpInt)

  const FRESH := Counters(0, 0, 0, -1)

  function CountOne(c: Counters, number: PhpInt): Counters {
    Counters(c.received + 1,
             if number > c.lastSeq + 1 && c.lastSeq >= 0 then c.gaps + 1 else c.gaps,
             if number <= c.lastSeq then c.dup + 1 else c.dup,
             number)
  }

  function CountAll(e: EndpointState, n: nat, c: Counters): Counters
    decreases n - c.received
  {
    if c.received >= n then c
    else
      var (m, e') := Recv(e);
      if m.None? then c else CountAll(e', n, CountOne(c, ToPhpInt(m.value.seqNo)))
  }

  function CountersOf(ms: seq<Message>): Counters {
    var a := SeqNumbers(ms);
    Counters(|ms|, Gaps(a), Dups(a), LastSeq(a, |a|))
  }

  lemma CountersOfAppend(ms: seq<Message>, m: Message)
    ensures CountersOf(ms + [m]) == CountOne(CountersOf(ms), ToPhpInt(m.seqNo))
  {
    var a, b := SeqNumbers(ms), SeqNumbers(ms + [m]);
    assert b[..|a|] == a && b[|a|] == ToPhpInt(m.seqNo);
  }

  lemma {:induction false} CountAllCountsReceives(taken: seq<Message>, e: EndpointState, n: nat)
    requires |taken| <= n
    ensures CountAll(e, n, CountersOf(taken)) == CountersOf(taken + Iterate(e, n - |taken|).0)
    decreases n - |taken|
  {
    var (m, e') := Recv(e);
    if |taken| == n || m.None? {
      assert taken + [] == taken;
    } else {
      CountersOfAppend(taken, m.value);
      CountAllCountsReceives(taken + [m.value], e', n);
      ConcatAssociative(taken, [m.value], Iterate(e', n - |taken| - 1).0);
    }
  }

  /** The drain loop on a stream. */
  method CheckOrder(stream: Subscription, n: nat) returns (received: nat, gaps: nat, dup: nat)
    modifies stream.endpoint, stream.endpoint.inner, stream.memory
    ensures var ms := Iterate(old(stream.endpoint.State()), n).0;
      received == |ms| && gaps == Gaps(SeqNumbers(ms)) && dup == Dups(SeqNumbers(ms))
    ensures stream.memory.cells == old(stream.memory.cells)
  {
    received, gaps, dup := 0, 0, 0;
    var lastSeq: PhpInt := -1;
    ghost var e0 := stream.endpoint.State();
    while received < n
      invariant stream.memory.cells == old(stream.memory.cells)
      invariant stream.endpoint.inner == old(stream.endpoint.inner) || stream.endpoint.inner == null
      invariant CountAll(stream.endpoint.State(), n, Counters(received, gaps, dup, lastSeq))
             == CountAll(e0, n, FRESH)
    {
      var msg := stream.RecvMessage();
      if msg.None? {
        break;
      }
      var number := msg.value.seqNo;
      if number <= lastSeq {
        dup := dup + 1;
      }
      if number > lastSeq + 1 && lastSeq >= 0 {
        gaps := gaps + 1;
      }
      lastSeq := number;
      received := received + 1;
    }
    assert Counters(received, gaps, dup, lastSeq) == CountAll(e0, n, FRESH);
    FirstCounters(e0, n);
  }

  lemma FirstCounters(e: EndpointState, n: nat)
    ensures CountAll(e, n, FRESH) == CountersOf(Iterate(e, n).0)
  {
    CountAllCountsReceives([], e, n);
    assert CountersOf([]) == FRESH;
    assert [] + Iterate(e, n).0 == Iterate(e, n).0;
  }

  predicate Consecutive(a: seq<PhpInt>) {
    forall i | 0 <= i < |a| :: a[i] == a[0] + i
  }

  /** The counters stay at zero exactly for consecutive numbers that start at 0 or above. */
  lemma {:induction false} CountersZeroIff(a: seq<PhpInt>)
    ensures Gaps(a) == 0 && Dups(a) == 0 <==> a == [] || (a[0] >= 0 && Consecutive(a))
    decreases a
  {
    if a != [] {
      var i := |a| - 1;
      var init := a[..i];
      CountersZeroIff(init);
      if i > 0 {
        if Consecutive(init) && a[i] as int == a[i - 1] as int + 1 {
          assert a[i - 1] == init[i - 1] == a[0] + (i - 1);
          assert forall k | 0 <= k < |a| :: a[k] == a[0] + k by {
            assert forall k | 0 <= k < i :: a[k] == init[k];
          }
        }
        if Consecutive(a) {
          assert forall k | 0 <= k < i :: init[k] == a[k];
          assert a[i - 1] == a[0] + (i - 1) && a[i] == a[0] + i;
        }
      }
    }
  }

  /** On the wire the numbers have 64 bits: the counters accept a consecutive sequence exactly when it
      stays below 2^63, where PHP's integers turn negative. */
  lemma WireNumbers(ms: seq<Message>)
    requires ms != []
    ensures var a := SeqNumbers(ms);
      (Gaps(a) == 0 && Dups(a) == 0)
      <==> ((forall i | 0 <= i < |ms| :: ms[i].seqNo == ms[0].seqNo + i) && ms[|ms| - 1].seqNo < TWO_63)
  {
    var a, last := SeqNumbers(ms), |ms| - 1;
    CountersZeroIff(a);
    if a[0] >= 0 && Consecutive(a) {
      forall i | 0 <= i < |ms| ensures ms[i].seqNo == ms[0].seqNo + i && ms[i].seqNo < TWO_63 {
        assert a[i] == a[0] + i;
      }
    }
    if (forall i | 0 <= i < |ms| :: ms[i].seqNo == ms[0].seqNo + i) && ms[last].seqNo < TWO_63 {
      forall i | 0 <= i < |ms| ensures a[i] == a[0] + i {
        assert ms[i].seqNo == ms[0].seqNo + i && ms[last].seqNo == ms[0].seqNo + last;
      }
    }
  }

  /** The loop's counters make the script print PASS. */
  predicate Passes(e: EndpointState, n: nat) {
    var ms := Iterate(e, n).0;
    |ms| == n && Gaps(SeqNumbers(ms)) == 0 && Dups(SeqNumbers(ms)) == 0
  }

  /** PASS means: the stream has at least `n` messages to deliver, and the first `n` carry consecutive
      numbers below 2^63. */
  lemma PassMeans(e: EndpointState, n: nat)
    requires n > 0
    ensures var all := EndpointContent(e);
      Passes(e, n) <==>
        && |all| >= n
        && (forall i | 0 <= i < n :: all[i].seqNo == all[0].seqNo + i)
        && all[n - 1].seqNo < TWO_63
  {
    var ms, all := Iterate(e, n).0, EndpointContent(e);
    IterateDeliversPrefix(e, n);
    if |ms| == n {
      assert forall i | 0 <= i < n :: ms[i] == all[i];
      WireNumbers(ms);
    }
  }

  /** Every message the stream delivers is one of the `total` frames numbered from `base` on. */
  predicate OnlyFrames(e: EndpointState, base: nat, total: nat) {
    forall i | 0 <= i < |EndpointContent(e)| :: base <= EndpointContent(e)[i].seqNo < base + total
  }

  /** What the PASS line claims. When the `n` frames that the script publishes, with any base number, are
      all that is on the topic, PASS means that every one of them was delivered, in order; anything lost,
      repeated or out of place among the first `n` makes the script fail. */
  lemma PassMeansAllDelivered(e: EndpointState, base: nat, n: nat)
    requires n > 0 && base + n <= TWO_63 && OnlyFrames(e, base, n)
    ensures var all := EndpointContent(e);
      Passes(e, n) <==> |all| >= n && forall i | 0 <= i < n :: all[i].seqNo == base + i
  {
    PassMeans(e, n);
    var all := EndpointContent(e);
    if |all| >= n {
      assert base <= all[0].seqNo && all[n - 1].seqNo < base + n;
    }
  }

  /** A stream that loses any of the frames, wherever, has too few left. */
  lemma TooFewFail(e: EndpointState, n: nat)
    requires |EndpointContent(e)| < n
    ensures !Passes(e, n)
  {
    IterateDeliversPrefix(e, n);
  }

  /** With more than `n` frames on the topic, from another publisher say, PASS leaves room for a loss
      before the first arrival, of as many frames as there are too many and no more. */
  lemma PassBoundsLostStart(e: EndpointState, base: nat, total: nat, n: nat)
    requires n > 0 && base + total <= TWO_63 && OnlyFrames(e, base, total) && Passes(e, n)
    ensures |EndpointContent(e)| >= n && EndpointContent(e)[0].seqNo - base + n <= total
  {
    PassMeans(e, n);
    var all := EndpointContent(e);
    assert all[n - 1].seqNo < base + total;
  }

  /** That bound is exact: losing just the first `missed` of `total` frames passes exactly when at least
      `n` remain; so, for the script's own `n` frames, exactly when nothing is lost. */
  lemma LostStart(base: nat, total: nat, missed: nat, n: nat)
    requires n > 0 && missed <= total && base + total <= TWO_63
    ensures var frames := seq(total - missed, i requires 0 <= i < total - missed =>
                                Message([], [], base + missed + i, 0));
      var e := Open(SourceState(frames, true, []));
      OnlyFrames(e, base, total) && (Passes(e, n) <==> missed + n <= total)
  {
    var frames := seq(total - missed, i requires 0 <= i < total - missed =>
                        Message([], [], base + missed + i, 0));
    var e := Open(SourceState(frames, true, []));
    assert EndpointContent(e) == frames;
    if missed + n <= total {
      PassMeans(e, n);
    } else {
      TooFewFail(e, n);
    }
  }

  /** The numbers between the first and the last arrival that did not arrive. */
  function Missing(a: seq<PhpInt>): set<int>
    requires a != []
  {
    set x: int | a[0] <= x <= a[|a| - 1] && x !in a
  }

  function Interval(lo: int, hi: int): (r: set<int>)
    requires lo <= hi
    ensures forall x :: x in r <==> lo <= x < hi
    ensures |r| == hi - lo
    decreases hi - lo
  {
    if lo == hi then {} else Interval(lo, hi - 1) + {hi - 1}
  }

  lemma {:induction false} IncreasingWithoutDups(a: seq<PhpInt>)
    requires Dups(a) == 0
    ensures forall i, j | 0 <= i < j < |a| :: a[i] < a[j]
    ensures a != [] ==> a[0] >= 0
    decreases a
  {
    if |a| > 1 {
      var init := a[..|a| - 1];
      IncreasingWithoutDups(init);
      forall i, j | 0 <= i < j < |a| ensures a[i] < a[j] {
        if j == |a| - 1 {
          assert init[i] <= init[|init| - 1];
        } else {
          assert init[i] < init[j];
        }
      }
    }
  }

  lemma MissingAt(init: seq<PhpInt>, next: PhpInt, x: int)
    requires init != [] && init[|init| - 1] < next
    requires forall k | 0 <= k < |init| :: init[0] <= init[k] <= init[|init| - 1]
    ensures x in Missing(init + [next])
       <==> x in Missing(init) || x in Interval(init[|init| - 1] as int + 1, next)
  {
    var a := init + [next];
    assert a[0] == init[0] && a[|a| - 1] == next;
    assert x in a <==> x in init || x == next;
    assert x in init ==> init[0] <= x <= init[|init| - 1];
  }

  /** The last arrival of an increasing sequence adds the numbers it skips to the missing ones. */
  lemma MissingGrows(init: seq<PhpInt>, next: PhpInt)
    requires init != [] && init[|init| - 1] < next
    requires forall k | 0 <= k < |init| :: init[0] <= init[k] <= init[|init| - 1]
    ensures var skipped := Interval(init[|init| - 1] as int + 1, next);
      Missing(init + [next]) == Missing(init) + skipped && Missing(init) !! skipped
  {
    var skipped := Interval(init[|init| - 1] as int + 1, next);
    forall x: int ensures x in Missing(init + [next]) <==> x in Missing(init) + skipped {
      MissingAt(init, next, x);
    }
  }

  /** Without duplicates nothing is lost from the account: received and missing numbers together fill
      the range, and each reported gap stands for at least one missing number. */
  lemma {:induction false} Accounting(a: seq<PhpInt>)
    requires a != [] && Dups(a) == 0
    ensures |a| + |Missing(a)| == a[|a| - 1] as int - a[0] as int + 1
    ensures Gaps(a) <= |Missing(a)|
    decreases a
  {
    IncreasingWithoutDups(a);
    var i := |a| - 1;
    if i == 0 {
      assert Missing(a) == {};
    } else {
      var init := a[..i];
      assert a == init + [a[i]];
      assert forall k | 0 <= k < i :: init[k] == a[k] && a[0] <= a[k] <= a[i - 1];
      Accounting(init);
      MissingGrows(init, a[i]);
    }
  }

  lemma MissingBelow(a: seq<PhpInt>, last: int)
    requires a != [] && a[|a| - 1] == last
    ensures forall x | x in Missing(a) :: x < last
  {
    assert a[|a| - 1] in a;
  }

  /** Arrival `i` is not above the one before it, or negative when it is the first. */
  predicate Repeats(a: seq<PhpInt>, i: nat)
    requires i < |a|
  {
    if i == 0 then a[0] < 0 else a[i] <= a[i - 1]
  }

  /** Arrival `i` leaves out a number after a non-negative one. */
  predicate Skips(a: seq<PhpInt>, i: nat)
    requires i < |a|
  {
    i > 0 && a[i - 1] >= 0 && a[i] as int - a[i - 1] as int > 1
  }

  function RepeatingArrivals(a: seq<PhpInt>): set<nat> {
    set i: nat | i < |a| && Repeats(a, i)
  }

  function SkippingArrivals(a: seq<PhpInt>): set<nat> {
    set i: nat | i < |a| && Skips(a, i)
  }

  lemma ArrivalAppended(init: seq<PhpInt>, next: PhpInt)
    ensures var a, last := init + [next], |init|;
      && RepeatingArrivals(a) == RepeatingArrivals(init) + (if Repeats(a, last) then {last} else {})
      && SkippingArrivals(a) == SkippingArrivals(init) + (if Skips(a, last) then {last} else {})
  {
    var a, last := init + [next], |init|;
    assert forall i: nat | i < last :: Repeats(init, i) <==> Repeats(a, i);
    assert forall i: nat | i < last :: Skips(init, i) <==> Skips(a, i);
  }

  /** What the two counters count. */
  lemma {:induction false} CountersCount(a: seq<PhpInt>)
    ensures Dups(a) == |RepeatingArrivals(a)| && Gaps(a) == |SkippingArrivals(a)|
    decreases a
  {
    if a != [] {
      var last := |a| - 1;
      assert a == a[..last] + [a[last]];
      CountersCount(a[..last]);
      ArrivalAppended(a[..last], a[last]);
    }
  }

  /** The runs of consecutive numbers in `m`, each given by its first number. */
  function Runs(m: set<int>): set<int> {
    set x {:trigger StartsRun(m, x)} | x in m && StartsRun(m, x)
  }

  predicate StartsRun(m: set<int>, x: int) {
    x in m && x - 1 !in m
  }

  /** Without duplicates, the gaps reported are the runs of consecutive missing numbers. */
  lemma {:induction false} GapsAreMissingRuns(a: seq<PhpInt>)
    requires a != [] && Dups(a) == 0
    ensures Gaps(a) == |Runs(Missing(a))|
    decreases a
  {
    var i := |a| - 1;
    if i == 0 {
      assert Missing(a) == {};
    } else {
      LastSkips(a);
      GapsAreMissingRuns(a[..i]);
      OneMoreRun(a[..i], a[i - 1], a[i]);
    }
  }

  lemma LastSkips(a: seq<PhpInt>)
    requires |a| > 1 && Dups(a) == 0
    ensures var i := |a| - 1;
      && a == a[..i] + [a[i]] && 0 <= a[i - 1] < a[i]
      && Missing(a) == Missing(a[..i]) + Interval(a[i - 1] as int + 1, a[i])
  {
    IncreasingWithoutDups(a);
    var i := |a| - 1;
    var init := a[..i];
    assert a == init + [a[i]];
    assert forall k | 0 <= k < i :: init[k] == a[k] && a[0] <= a[k] <= a[i - 1];
    MissingGrows(init, a[i]);
  }

  /** The numbers skipped before the last arrival are one more run. */
  lemma OneMoreRun(init: seq<PhpInt>, last: int, next: PhpInt)
    requires init != [] && init[|init| - 1] == last < next
    requires Missing(init + [next]) == Missing(init) + Interval(last + 1, next)
    ensures |Runs(Missing(init + [next]))| == |Runs(Missing(init))| + (if last + 1 < next then 1 else 0)
  {
    MissingBelow(init, last);
    RunsOfUnion(Missing(init), last + 1, next);
  }

  /** A non-empty interval above `m` and not touching it is one more run. */
  lemma RunsOfUnion(m: set<int>, lo: int, hi: int)
    requires lo <= hi && forall x | x in m :: x < lo - 1
    ensures |Runs(m + Interval(lo, hi))| == |Runs(m)| + (if lo < hi then 1 else 0)
  {
    var union, more := m + Interval(lo, hi), if lo < hi then {lo} else {};
    forall x: int ensures x in Runs(union) <==> x in Runs(m) + more {
      assert StartsRun(union, x) <==> StartsRun(m, x) || x in more;
    }
    assert Runs(union) == Runs(m) + more;
  }

  // ---------------------------------------------------------------- the publisher

  const FRAME_SIZE: nat := 256

  /** `pack('V', $i)`: 32 bits, least significant byte first. */
  function PackV(i: nat): seq<byte> {
    [i % 256, i / 256 % 256, i / 65536 % 256, i / 1677_7216 % 256]
  }

  function Frame(i: nat): seq<byte> {
    PackV(i) + seq(FRAME_SIZE - 4, _ => 0)
  }

  /** `tryPublish` is refused `failures[i]` times before it takes frame `i`. Every finite pattern of
      failures has this form. */
  method PublishFrames(n: nat, failures: seq<nat>) returns (sent: seq<seq<byte>>)
    requires |failures| == n
    ensures sent == seq(n, i requires 0 <= i < n => Frame(i))
  {
    sent := [];
    var remaining := failures;
    var payload: seq<byte> := seq(FRAME_SIZE, _ => 0);
    var i: int := 0;
    while i < n
      invariant 0 <= i <= n && |remaining| == n
      invariant |payload| == FRAME_SIZE && payload[4..] == seq(FRAME_SIZE - 4, _ => 0)
      invariant sent == seq(i, k requires 0 <= k < i => Frame(k))
      decreases n - i, if i < n then remaining[i] else 0
    {
      var packed := PackV(i);
      payload := payload[0 := packed[0]][1 := packed[1]][2 := packed[2]][3 := packed[3]];
      assert payload == packed + payload[4..];
      if remaining[i] > 0 {
        remaining := remaining[i := remaining[i] - 1];
        i := i - 1;
      } else {
        sent := sent + [payload];
      }
      i := i + 1;
    }
  }

  /** A frame has 256 bytes; its first four, least significant first, are the index modulo 2^32, so they
      give it back exactly below 2^32; the others are zero. */
  lemma StampDecodes(i: nat)
    ensures var f := Frame(i);
      && |f| == 256 && (forall k | 4 <= k < 256 :: f[k] == 0)
      && var stamp := f[0] as int + 256 * f[1] as int + 65536 * f[2] as int + 1677_7216 * f[3] as int;
        stamp == i % 0x1_0000_0000 && (stamp == i <==> i < 0x1_0000_0000)
  {
    Base256(i);
    Base256(i / 256);
    Base256(i / 256 / 256);
    Base256(i / 256 / 256 / 256);
    NestedQuotients(i);
    var low := i % TWO_32;
    assert i == low + TWO_32 * (i / 256 / 256 / 256 / 256);
  }

  lemma Base256(i: nat)
    ensures i == i % 256 + 256 * (i / 256)
  {
  }

  lemma NestedQuotients(i: nat)
    ensures i / 65536 == i / 256 / 256 && i / 1677_7216 == i / 256 / 256 / 256
  {
  }
}
