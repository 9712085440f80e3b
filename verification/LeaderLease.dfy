/** The leader-lease ticker: on every tick the node looks whether it leads, records when a
    stretch of leadership began, and steps down once the stretch outlasts the lease. */
module LeaderLease {

  /** One tick: whether the node leads, the clock when a start would be recorded, and the
      clock when the lease is tested. */
  datatype Tick = Tick(leads: bool, now: int, since: int)

  /** The clock does not run backwards. */
  ghost predicate ClockRuns(ticks: seq<Tick>) {
    && (forall k :: 0 <= k < |ticks| ==> ticks[k].now <= ticks[k].since)
    && (forall j, k :: 0 <= j < k < |ticks| ==> ticks[j].since <= ticks[k].now)
  }

  /** Tick j begins the unbroken stretch of leadership that tick k belongs to: the node
      leads from j to k, did not step down on the way, and before j it either did not lead
      or had just stepped down. */
  ghost predicate Stretch(ticks: seq<Tick>, down: seq<bool>, j: nat, k: nat) {
    && j <= k < |ticks| && k <= |down|
    && (forall m :: j <= m <= k ==> ticks[m].leads)
    && (forall m :: j <= m < k ==> !down[m])
    && (j == 0 || !ticks[j - 1].leads || down[j - 1])
  }

  ghost predicate Expired(lease: int, ticks: seq<Tick>, down: seq<bool>, j: nat, k: nat) {
    Stretch(ticks, down, j, k) && ticks[k].since - ticks[j].now > lease
  }

  /** The rule: step down on tick k exactly when the stretch it belongs to began more than
      a lease ago. */
  ghost predicate StepsDownByRule(lease: int, ticks: seq<Tick>, down: seq<bool>, k: nat) {
    k < |down| <= |ticks| && (down[k] <==> exists j :: Expired(lease, ticks, down, j, k))
  }

  /** The ticker loop. */
  method RunTicker(lease: int, ticks: seq<Tick>) returns (down: seq<bool>)
    ensures |down| == |ticks|
    ensures forall k :: 0 <= k < |ticks| ==> StepsDownByRule(lease, ticks, down, k)
  {
    down := [];
    var leaderStartTime := 0;
    var wasLeader := false;
    ghost var start := 0;
    for k := 0 to |ticks|
      invariant |down| == k
      invariant wasLeader ==> k > 0 && Stretch(ticks, down, start, k - 1) && !down[k - 1] &&
                              leaderStartTime == ticks[start].now
      invariant !wasLeader ==> k == 0 || !ticks[k - 1].leads || down[k - 1]
      invariant forall i :: 0 <= i < k ==> StepsDownByRule(lease, ticks, down, i)
    {
      ghost var before := down;
      var isLeader := ticks[k].leads;
      if isLeader && !wasLeader {
        leaderStartTime := ticks[k].now;
        start := k;
      }
      if isLeader {
        assert Stretch(ticks, down, start, k);
      }
      if isLeader && ticks[k].since - leaderStartTime > lease {
        down := down + [true];
        wasLeader := false;
      } else {
        down := down + [false];
        wasLeader := isLeader;
      }
      if isLeader {
        StretchExtends(ticks, before, down, start, k);
        RuleInStretch(lease, ticks, down, start, k);
      }
      forall i | 0 <= i < k ensures StepsDownByRule(lease, ticks, down, i) {
        RuleExtends(lease, ticks, before, down, i);
      }
    }
  }

  lemma StretchExtends(ticks: seq<Tick>, d1: seq<bool>, d2: seq<bool>, j: nat, k: nat)
    requires k <= |d1| && k <= |d2| && d1[..k] == d2[..k]
    ensures Stretch(ticks, d1, j, k) <==> Stretch(ticks, d2, j, k)
  {
    assert forall m :: 0 <= m < k ==> d1[m] == d1[..k][m] == d2[..k][m] == d2[m];
  }

  lemma RuleExtends(lease: int, ticks: seq<Tick>, d1: seq<bool>, d2: seq<bool>, k: nat)
    requires d1 <= d2 && |d2| <= |ticks| && StepsDownByRule(lease, ticks, d1, k)
    ensures StepsDownByRule(lease, ticks, d2, k)
  {
    forall j: nat ensures Expired(lease, ticks, d1, j, k) <==> Expired(lease, ticks, d2, j, k) {
      StretchExtends(ticks, d1, d2, j, k);
    }
  }

  /** Two starts of one stretch coincide. */
  lemma StretchUnique(ticks: seq<Tick>, down: seq<bool>, i: nat, j: nat, k: nat)
    requires Stretch(ticks, down, i, k) && Stretch(ticks, down, j, k)
    ensures i >= j
  {
    assert j > 0 ==> !ticks[j - 1].leads || down[j - 1];
  }

  /** Inside a stretch with a known start the rule is a comparison. */
  lemma RuleInStretch(lease: int, ticks: seq<Tick>, down: seq<bool>, j: nat, k: nat)
    requires Stretch(ticks, down, j, k) && k < |down| <= |ticks|
    ensures StepsDownByRule(lease, ticks, down, k) <==> (down[k] <==> ticks[k].since - ticks[j].now > lease)
  {
    forall m: nat ensures Expired(lease, ticks, down, m, k) <==> m == j && ticks[k].since - ticks[j].now > lease {
      if Expired(lease, ticks, down, m, k) {
        StretchUnique(ticks, down, m, j, k);
        StretchUnique(ticks, down, j, m, k);
      }
    }
    assert Expired(lease, ticks, down, j, k) <==> ticks[k].since - ticks[j].now > lease;
  }

  lemma {:induction false} StretchExists(ticks: seq<Tick>, down: seq<bool>, k: nat) returns (j: nat)
    requires k < |ticks| && k <= |down| && ticks[k].leads
    ensures Stretch(ticks, down, j, k)
    decreases k
  {
    if k == 0 || !ticks[k - 1].leads || down[k - 1] {
      j := k;
    } else {
      j := StretchExists(ticks, down, k - 1);
    }
  }

  ghost predicate FollowsRule(lease: int, ticks: seq<Tick>, down: seq<bool>) {
    |down| == |ticks| && forall k :: 0 <= k < |ticks| ==> StepsDownByRule(lease, ticks, down, k)
  }

  /** The rule leaves no choice: it determines every step-down. */
  lemma {:induction false} RuleIsDeterministic(lease: int, ticks: seq<Tick>, d1: seq<bool>, d2: seq<bool>, k: nat)
    requires FollowsRule(lease, ticks, d1) && FollowsRule(lease, ticks, d2) && k <= |ticks|
    ensures d1[..k] == d2[..k]
    decreases k
  {
    if k > 0 {
      var i := k - 1;
      RuleIsDeterministic(lease, ticks, d1, d2, i);
      assert StepsDownByRule(lease, ticks, d1, i) && StepsDownByRule(lease, ticks, d2, i);
      if ticks[i].leads {
        var j := StretchExists(ticks, d1, i);
        StretchExtends(ticks, d1, d2, j, i);
        RuleInStretch(lease, ticks, d1, j, i);
        RuleInStretch(lease, ticks, d2, j, i);
      }
      assert d1[..k] == d1[..i] + [d1[i]] && d2[..k] == d2[..i] + [d2[i]];
    }
  }

  /** Each step-down ends an unbroken stretch of leadership longer than the lease.  This
      reads off what `RunTicker` ensures of the loop. */
  lemma StepDownEndsLongStretch(lease: int, ticks: seq<Tick>, down: seq<bool>, k: nat) returns (j: nat)
    requires FollowsRule(lease, ticks, down) && k < |ticks| && down[k]
    ensures Stretch(ticks, down, j, k) && ticks[k].since - ticks[j].now > lease
  {
    assert StepsDownByRule(lease, ticks, down, k);
    j :| Expired(lease, ticks, down, j, k);
  }

  /** Successive step-downs are more than one lease apart. */
  lemma StepDownsAreALeaseApart(lease: int, ticks: seq<Tick>, down: seq<bool>, i: nat, k: nat)
    requires FollowsRule(lease, ticks, down) && ClockRuns(ticks)
    requires i < k < |ticks| && down[i] && down[k]
    ensures ticks[k].since - ticks[i].since > lease
  {
    var j := StepDownEndsLongStretch(lease, ticks, down, k);
    assert i < j;
  }

  /** When the tick before tick m was observed; for the first one, its own time. */
  function LastSeen(ticks: seq<Tick>, m: nat): int
    requires m < |ticks|
  {
    if m == 0 then ticks[0].now else ticks[m - 1].since
  }

  ghost predicate GapsAtMost(ticks: seq<Tick>, p: int) {
    forall m {:trigger LastSeen(ticks, m)} :: 0 <= m < |ticks| ==> ticks[m].since - LastSeen(ticks, m) <= p
  }

  /** An unbroken stretch that outlasts the lease is cut: with ticks at most p apart the
      node steps down within lease + p of the recorded start. */
  lemma LongStretchIsCut(lease: int, ticks: seq<Tick>, down: seq<bool>, p: int, j: nat, k: nat) returns (i: nat)
    requires FollowsRule(lease, ticks, down)
    requires GapsAtMost(ticks, p)
    requires ClockRuns(ticks) && lease >= 0
    requires j <= k < |ticks| && (j == 0 || !ticks[j - 1].leads || down[j - 1])
    requires forall m :: j <= m <= k ==> ticks[m].leads
    requires ticks[k].since - ticks[j].now > lease
    ensures j <= i <= k && down[i] && Stretch(ticks, down, j, i)
    ensures lease < ticks[i].since - ticks[j].now <= lease + p
  {
    i := j;
    while ticks[i].since - ticks[j].now <= lease
      invariant j <= i <= k && Stretch(ticks, down, j, i)
      invariant i > j ==> ticks[i - 1].since - ticks[j].now <= lease
      decreases k - i
    {
      assert StepsDownByRule(lease, ticks, down, i);
      RuleInStretch(lease, ticks, down, j, i);
      i := i + 1;
    }
    assert StepsDownByRule(lease, ticks, down, i);
    RuleInStretch(lease, ticks, down, j, i);
    CutInTime(lease, ticks, p, j, i);
  }

  lemma CutInTime(lease: int, ticks: seq<Tick>, p: int, j: nat, i: nat)
    requires GapsAtMost(ticks, p) && ClockRuns(ticks) && lease >= 0
    requires j <= i < |ticks| && (i > j ==> ticks[i - 1].since - ticks[j].now <= lease)
    ensures ticks[i].since - ticks[j].now <= lease + p
  {
    assert ticks[i].since - LastSeen(ticks, i) <= p;
    assert i > 0 ==> ticks[i - 1].since <= ticks[i].now;
  }
}
