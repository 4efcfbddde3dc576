/** examples/hol_congestion.php: the interleaving publisher and the final report. */
module Congestion {
  import opened Base

  /** Light messages are due when the heavy index is a positive multiple of 100. */
  predicate Due(i: int) {
    i % 100 == 0 && i > 0
  }

  /** Heavy message `i` is refused `failures[i]` times; each attempt at a due index publishes to the
      light streams again. */
  function LightCount(failures: seq<nat>): nat {
    if failures == [] then 0
    else
      var i := |failures| - 1;
      LightCount(failures[..i]) + (if Due(i) then 1 + failures[i] else 0)
  }

  /** The publishing loop; `counts[s]` is what stream `s` has accepted. */
  method PublishAll(heavyCount: nat, streams: nat, failures: seq<nat>) returns (counts: seq<nat>)
    requires |failures| == heavyCount
    ensures |counts| == if streams == 0 then 1 else streams
    ensures counts[0] == heavyCount
    ensures forall s | 1 <= s < streams :: counts[s] == LightCount(failures)
  {
    counts := seq(if streams == 0 then 1 else streams, _ => 0);
    var remaining := failures;
    var i: int := 0;
    while i < heavyCount
      invariant 0 <= i <= heavyCount && |remaining| == heavyCount
      invariant forall k | i < k < heavyCount :: remaining[k] == failures[k]
      invariant i < heavyCount ==> remaining[i] <= failures[i]
      invariant |counts| == (if streams == 0 then 1 else streams) && counts[0] == i
      invariant forall s | 1 <= s < streams :: counts[s] == LightCount(failures[..i])
                  + (if i < heavyCount && Due(i) then failures[i] - remaining[i] else 0)
      decreases heavyCount - i, if i < heavyCount then remaining[i] else 0
    {
      if i % 100 == 0 && i > 0 {
        ghost var before := counts;
        var s := 1;
        while s < streams
          invariant 1 <= s <= |counts| == |before| && counts[0] == before[0]
          invariant forall k | 1 <= k < s :: counts[k] == before[k] + 1
          invariant forall k | s <= k < streams :: counts[k] == before[k]
        {
          counts := counts[s := counts[s] + 1];
          s := s + 1;
        }
      }
      if remaining[i] > 0 {
        remaining := remaining[i := remaining[i] - 1];
        i := i - 1;
      } else {
        counts := counts[0 := counts[0] + 1];
        assert failures[..i + 1][..i] == failures[..i];
      }
      i := i + 1;
    }
    assert failures[..heavyCount] == failures;
  }

  /** Every light stream gets at least one message per due index, and exactly that many exactly when
      no heavy attempt was refused at a due index. */
  lemma {:induction false} LightCountBound(failures: seq<nat>)
    ensures LightCount(failures) >= (if failures == [] then 0 else (|failures| - 1) / 100)
    ensures LightCount(failures) == (if failures == [] then 0 else (|failures| - 1) / 100)
       <==> forall i | 0 <= i < |failures| && Due(i) :: failures[i] == 0
    decreases failures
  {
    if failures != [] {
      var i := |failures| - 1;
      var init := failures[..i];
      LightCountBound(init);
      assert forall k | 0 <= k < i :: init[k] == failures[k];
      if i > 0 {
        assert i / 100 == (i - 1) / 100 + (if i % 100 == 0 then 1 else 0);
      }
    }
  }

  /** Each refusal of a heavy message at a due index publishes to every light stream once more, and a
      refusal at any other index does not. */
  lemma {:induction false} OneMoreRefusal(failures: seq<nat>, i: nat)
    requires i < |failures|
    ensures LightCount(failures[i := failures[i] + 1])
         == LightCount(failures) + (if i > 0 && i % 100 == 0 then 1 else 0)
    decreases failures
  {
    var last := |failures| - 1;
    var more := failures[i := failures[i] + 1];
    if i < last {
      OneMoreRefusal(failures[..last], i);
      assert more[..last] == failures[..last][i := failures[i] + 1];
    } else {
      assert more[..last] == failures[..last];
    }
  }

  /** The publisher gives the light streams anything at all exactly when there are more than 100 heavy
      messages. */
  lemma {:induction false} LightGetsSomethingIff(failures: seq<nat>)
    ensures LightCount(failures) > 0 <==> |failures| > 100
  {
    LightCountBound(failures);
  }

  function Sum(counts: seq<nat>): nat {
    if counts == [] then 0 else Sum(counts[..|counts| - 1]) + counts[|counts| - 1]
  }

  /** The total is taken over all streams, each counted once. */
  lemma {:induction false} SumSplits(a: seq<nat>, b: seq<nat>)
    ensures Sum(a + b) == Sum(a) + Sum(b)
    ensures forall x: nat :: Sum([x]) == x
    decreases b
  {
    forall x: nat ensures Sum([x]) == x {
      assert [x][..0] == [];
    }
    if b == [] {
      assert a + b == a;
    } else {
      var last := |b| - 1;
      SumSplits(a, b[..last]);
      assert (a + b)[..|a| + last] == a + b[..last];
    }
  }

  /** The script prints PASS: every light stream received something. */
  predicate Verdict(counts: seq<nat>) {
    forall s | 1 <= s < |counts| :: counts[s] != 0
  }

  /** No light stream can have received more than was published to it. */
  predicate Deliverable(counts: seq<nat>, failures: seq<nat>) {
    forall s | 1 <= s < |counts| :: counts[s] <= LightCount(failures)
  }

  /** Whatever the network does, some delivery passes exactly when there is no light stream or more than
      100 heavy messages; otherwise the script must fail. */
  lemma VerdictCanPassIff(streams: nat, failures: seq<nat>)
    requires streams > 0
    ensures (exists counts: seq<nat> :: |counts| == streams && Deliverable(counts, failures) && Verdict(counts))
       <==> streams == 1 || |failures| > 100
  {
    LightGetsSomethingIff(failures);
    if streams == 1 || |failures| > 100 {
      var counts: seq<nat> := seq(streams, _ => LightCount(failures));
      assert |counts| == streams && Deliverable(counts, failures) && Verdict(counts);
    } else {
      forall counts: seq<nat> | |counts| == streams && Deliverable(counts, failures) ensures !Verdict(counts) {
        assert counts[1] <= LightCount(failures);
      }
    }
  }

  /** The summary loops and the verdict. */
  method Report(counts: seq<nat>) returns (lightest: int, total: nat, pass: bool)
    requires counts != []
    ensures total == Sum(counts)
    ensures pass <==> Verdict(counts)
    ensures |counts| == 1 ==> lightest == 0
    ensures (exists s :: 1 <= s < |counts| && counts[s] < TWO_63 - 1) ==>
      && (exists s :: 1 <= s < |counts| && counts[s] == lightest)
      && (forall s | 1 <= s < |counts| :: lightest <= counts[s])
      && (pass <==> lightest > 0)
  {
    var heavy := counts[0];
    lightest := TWO_63 - 1;
    total := 0;
    for s := 1 to |counts|
      invariant total + counts[0] == Sum(counts[..s])
      invariant forall k | 1 <= k < s :: lightest <= counts[k]
      invariant lightest == TWO_63 - 1 || exists k :: 1 <= k < s && counts[k] == lightest
      invariant lightest <= TWO_63 - 1
    {
      lightest := if counts[s] < lightest then counts[s] else lightest;
      total := total + counts[s];
      assert counts[..s + 1][..s] == counts[..s];
    }
    assert counts[..|counts|] == counts;
    total := total + heavy;
    if lightest == TWO_63 - 1 {
      lightest := 0;
    }
    pass := true;
    for s := 1 to |counts|
      invariant pass && forall k | 1 <= k < s :: counts[k] != 0
    {
      if counts[s] == 0 {
        pass := false;
        return;
      }
    }
  }
}
