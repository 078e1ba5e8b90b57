/**
 The attribution of confirmed losses to group rebalances.  Each reconciliation samples the
 tracker's total loss and adds what exceeds the losses attributed so far; the reset after
 the warm-up clears the counter and the tracker, but not what was attributed.

 The first half takes a call as one step.  The second splits it into its reads and writes,
 which several goroutines interleave with each other and with the reset.
 */
module GroupLoss {
  import opened Helpers

  datatype Event = Sample(lost: nat) | Reset

  function Max(a: nat, b: nat): nat { if a > b then a else b }

  function Min(a: nat, b: nat): nat { if a < b then a else b }

  /** The largest loss sampled in a history. */
  function Largest(h: seq<Event>): nat {
    if h == [] then 0
    else
      match Last(h)
      case Sample(lost) => Max(Largest(Front(h)), lost)
      case Reset => Largest(Front(h))
  }

  /** The history up to the last reset, and the history after it. */
  function UpToReset(h: seq<Event>): seq<Event> {
    if h == [] then [] else if Last(h) == Reset then h else UpToReset(Front(h))
  }

  function SinceReset(h: seq<Event>): seq<Event> {
    if h == [] then []
    else if Last(h) == Reset then []
    else SinceReset(Front(h)) + [Last(h)]
  }

  class ConsumerGroupWorker {
    var attributed: nat
    var groupLossRebalance: nat
    ghost var history: seq<Event>

    ghost predicate Valid()
      reads this
    {
      && attributed == Largest(history)
      && groupLossRebalance == Largest(history) - Largest(UpToReset(history))
    }

    constructor ()
      ensures Valid() && history == []
    {
      attributed, groupLossRebalance := 0, 0;
      history := [];
    }

    /** Adds the loss that is not attributed yet. */
    method ReconcileGroupLoss(lost: nat)
      requires Valid()
      modifies this
      ensures Valid() && history == old(history) + [Sample(lost)]
      ensures attributed == if lost > old(attributed) then lost else old(attributed)
      ensures groupLossRebalance - old(groupLossRebalance) == attributed - old(attributed)
    {
      assert (history + [Sample(lost)])[..|history|] == history;
      history := history + [Sample(lost)];
      var prev := attributed;
      if lost > prev {
        groupLossRebalance := groupLossRebalance + (lost - prev);
        attributed := lost;
      }
    }

    method ResetAfterWarmup()
      requires Valid()
      modifies this
      ensures Valid() && history == old(history) + [Reset]
      ensures groupLossRebalance == 0 && attributed == old(attributed)
    {
      assert (history + [Reset])[..|history|] == history;
      history := history + [Reset];
      groupLossRebalance := 0;
    }
  }

  lemma {:induction false} LargestSplits(h: seq<Event>)
    ensures Largest(h) == Max(Largest(UpToReset(h)), Largest(SinceReset(h)))
  {
    if h != [] && Last(h) != Reset {
      LargestSplits(Front(h));
      var since := SinceReset(Front(h));
      assert (since + [Last(h)])[..|since|] == since;
    }
  }

  /** The counter falls short of the largest loss sampled since the reset by the smaller of that and what was
      attributed before, so it is right exactly when one of the two is 0. */
  lemma CountsLossSinceResetIff(h: seq<Event>)
    ensures var counter, since := Largest(h) - Largest(UpToReset(h)), Largest(SinceReset(h));
      var before := Largest(UpToReset(h));
      && counter == since - Min(before, since)
      && (counter == since <==> before == 0 || since == 0)
  {
    LargestSplits(h);
  }

  // ---------- Calls that overlap ----------

  /** Between calls; a call that has read the tracker's loss; one that also loaded what is attributed and found
      it less; one that has added the difference and not yet stored its loss. */
  datatype Pc = Idle | Sampled(lost: nat) | Loaded(lost: nat, prev: nat) | Added(lost: nat)

  datatype Shared = Shared(attributed: nat, groupLossRebalance: int, pcs: seq<Pc>)

  /** A goroutine reads the loss, which begins a call, or takes the next step of its call; or the warm-up
      ends.  The churner and the stop of the producers are two of the goroutines. */
  datatype Action = Begin(g: nat, lost: nat) | Step(g: nat) | Clear

  function Next(s: Shared, a: Action): Shared {
    match a
    case Clear => s.(groupLossRebalance := 0)
    case Begin(g, lost) =>
      if g < |s.pcs| && s.pcs[g] == Idle then s.(pcs := s.pcs[g := Sampled(lost)]) else s
    case Step(g) =>
      if g >= |s.pcs| then s
      else
        match s.pcs[g]
        case Idle => s
        case Sampled(lost) =>
          s.(pcs := s.pcs[g := if lost > s.attributed then Loaded(lost, s.attributed) else Idle])
        case Loaded(lost, prev) =>
          s.(groupLossRebalance := s.groupLossRebalance + (lost - prev), pcs := s.pcs[g := Added(lost)])
        case Added(lost) => s.(attributed := lost, pcs := s.pcs[g := Idle])
  }

  /** n goroutines after the run. */
  function Exec(n: nat, run: seq<Action>): Shared {
    if run == [] then Shared(0, 0, seq(n, _ => Idle)) else Next(Exec(n, Front(run)), Last(run))
  }

  /** The action adds a loss. */
  predicate IsAdd(s: Shared, a: Action) {
    a.Step? && a.g < |s.pcs| && s.pcs[a.g].Loaded?
  }

  /** The largest loss added, and the largest one added since the last reset, after one more action. */
  function AddedAfter(s: Shared, a: Action, added: nat): nat {
    if IsAdd(s, a) then Max(added, s.pcs[a.g].lost) else added
  }

  function LargestAdded(n: nat, run: seq<Action>): nat {
    if run == [] then 0 else AddedAfter(Exec(n, Front(run)), Last(run), LargestAdded(n, Front(run)))
  }

  function AddedSinceReset(n: nat, run: seq<Action>): nat {
    if run == [] || Last(run) == Clear then 0
    else AddedAfter(Exec(n, Front(run)), Last(run), AddedSinceReset(n, Front(run)))
  }

  function AddedBeforeReset(n: nat, run: seq<Action>): nat {
    if run == [] then 0
    else if Last(run) == Clear then LargestAdded(n, Front(run))
    else AddedBeforeReset(n, Front(run))
  }

  /** The action adds to what was attributed when its call loaded, though more was added since. */
  predicate IsStale(s: Shared, a: Action, added: nat) {
    IsAdd(s, a) && s.pcs[a.g].prev < added
  }

  predicate EverStale(n: nat, run: seq<Action>) {
    run != [] && (EverStale(n, Front(run)) || IsStale(Exec(n, Front(run)), Last(run), LargestAdded(n, Front(run))))
  }

  predicate StaleSinceReset(n: nat, run: seq<Action>) {
    run != [] && Last(run) != Clear &&
    (StaleSinceReset(n, Front(run)) || IsStale(Exec(n, Front(run)), Last(run), LargestAdded(n, Front(run))))
  }

  // ---------- The counter at every moment ----------

  /** What holds of every interleaving, with `added` the largest loss added and `base` that at the last reset. */
  ghost predicate Bounded(s: Shared, added: nat, base: nat) {
    && s.attributed <= added && base <= added
    && (forall pc <- s.pcs :: pc.Loaded? ==> pc.prev < pc.lost && pc.prev <= added)
    && (forall pc <- s.pcs :: pc.Added? ==> pc.lost <= added)
    && s.groupLossRebalance >= added - base
  }

  lemma BoundedAfter(s: Shared, a: Action, added: nat, base: nat)
    requires Bounded(s, added, base)
    ensures Bounded(Next(s, a), AddedAfter(s, a, added), if a == Clear then added else base)
  {
    var s' := Next(s, a);
    if !a.Clear? && a.g < |s.pcs| {
      assert s.pcs[a.g] in s.pcs;
      assert forall pc <- s'.pcs :: pc in s.pcs || pc == s'.pcs[a.g];
    }
  }

  /** A stale addition counts some loss again, any other counts what is new, and no later one makes up for it. */
  lemma ExactAfter(s: Shared, a: Action, added: nat, base: nat)
    requires Bounded(s, added, base) && a != Clear
    ensures Next(s, a).groupLossRebalance == AddedAfter(s, a, added) - base
            <==> s.groupLossRebalance == added - base && !IsStale(s, a, added)
  {
    if IsAdd(s, a) {
      assert s.pcs[a.g] in s.pcs;
    }
  }

  lemma {:induction false} RunIsBounded(n: nat, run: seq<Action>)
    ensures Bounded(Exec(n, run), LargestAdded(n, run), AddedBeforeReset(n, run))
    ensures Exec(n, run).groupLossRebalance == LargestAdded(n, run) - AddedBeforeReset(n, run)
            <==> !StaleSinceReset(n, run)
  {
    hide Next, Bounded, AddedAfter, IsStale;
    if run == [] {
      StartIsBounded(n);
    } else {
      var s, a := Exec(n, Front(run)), Last(run);
      var added, base := LargestAdded(n, Front(run)), AddedBeforeReset(n, Front(run));
      RunIsBounded(n, Front(run));
      BoundedAfter(s, a, added, base);
      if a == Clear {
        ClearCounts(s, added);
      } else {
        ExactAfter(s, a, added, base);
      }
    }
  }

  lemma StartIsBounded(n: nat)
    ensures Bounded(Exec(n, []), 0, 0)
  {
  }

  lemma ClearCounts(s: Shared, added: nat)
    ensures Next(s, Clear).groupLossRebalance == 0 && AddedAfter(s, Clear, added) == added
  {
  }

  lemma {:induction false} AddedSplits(n: nat, run: seq<Action>)
    ensures LargestAdded(n, run) == Max(AddedBeforeReset(n, run), AddedSinceReset(n, run))
  {
    hide Exec;
    if run != [] {
      AddedSplits(n, Front(run));
    }
  }

  /** For any goroutines, at every moment of every run with resets: of the largest loss added since the last
      reset, the counter holds at least what exceeds the losses from before the reset, and it holds exactly
      that when and only when no addition since the reset was stale. */
  lemma CountsOnceIff(n: nat, run: seq<Action>)
    ensures var counter, since := Exec(n, run).groupLossRebalance, AddedSinceReset(n, run);
      var once := since - Min(AddedBeforeReset(n, run), since);
      counter >= once && (counter == once <==> !StaleSinceReset(n, run))
  {
    hide Exec, LargestAdded, AddedBeforeReset, AddedSinceReset, StaleSinceReset;
    RunIsBounded(n, run);
    AddedSplits(n, run);
  }

  /** So with nothing attributed before the reset the counter is the largest loss since exactly when no addition
      was stale; and with no stale addition, exactly when nothing was attributed before or nothing since. */
  lemma CountsLossIff(n: nat, run: seq<Action>)
    ensures var counter, since := Exec(n, run).groupLossRebalance, AddedSinceReset(n, run);
      var before := AddedBeforeReset(n, run);
      && (before == 0 ==> (counter == since <==> !StaleSinceReset(n, run)))
      && (!StaleSinceReset(n, run) ==> (counter == since <==> before == 0 || since == 0))
  {
    hide Exec, LargestAdded, AddedBeforeReset, AddedSinceReset, StaleSinceReset;
    CountsOnceIff(n, run);
  }

  // ---------- What is added is what was read ----------

  function ReadAfter(s: Shared, a: Action, read: nat): nat {
    if a.Begin? && a.g < |s.pcs| && s.pcs[a.g] == Idle then Max(read, a.lost) else read
  }

  /** The largest loss that a call of the run read. */
  function LargestRead(n: nat, run: seq<Action>): nat {
    if run == [] then 0 else ReadAfter(Exec(n, Front(run)), Last(run), LargestRead(n, Front(run)))
  }

  /** The largest loss read was added, or its call is on its way. */
  ghost predicate Accounted(s: Shared, added: nat, read: nat) {
    && s.attributed <= added <= read
    && (forall g | 0 <= g < |s.pcs| :: s.pcs[g] != Idle ==> s.pcs[g].lost <= read)
    && (forall g | 0 <= g < |s.pcs| :: s.pcs[g].Added? ==> s.pcs[g].lost <= added)
    && (added < read ==>
          exists g :: 0 <= g < |s.pcs| && (s.pcs[g].Sampled? || s.pcs[g].Loaded?) && s.pcs[g].lost == read)
  }

  lemma AccountedAfter(s: Shared, a: Action, added: nat, read: nat)
    requires Accounted(s, added, read)
    ensures Accounted(Next(s, a), AddedAfter(s, a, added), ReadAfter(s, a, read))
  {
    var s', added', read' := Next(s, a), AddedAfter(s, a, added), ReadAfter(s, a, read);
    if added' < read' {
      if read' > read {
        assert s'.pcs[a.g] == Sampled(read');
      } else {
        var g :| 0 <= g < |s.pcs| && (s.pcs[g].Sampled? || s.pcs[g].Loaded?) && s.pcs[g].lost == read;
        assert (s'.pcs[g].Sampled? || s'.pcs[g].Loaded?) && s'.pcs[g].lost == read;
      }
    }
  }

  lemma {:induction false} RunIsAccounted(n: nat, run: seq<Action>)
    ensures Accounted(Exec(n, run), LargestAdded(n, run), LargestRead(n, run))
  {
    hide Next, AddedAfter, ReadAfter;
    if run != [] {
      hide Accounted;
      RunIsAccounted(n, Front(run));
      AccountedAfter(Exec(n, Front(run)), Last(run), LargestAdded(n, Front(run)), LargestRead(n, Front(run)));
    }
  }

  /** When all calls are over, the largest loss added is the largest loss read. */
  lemma LargestReadIsAdded(n: nat, run: seq<Action>)
    requires forall pc <- Exec(n, run).pcs :: pc == Idle
    ensures LargestAdded(n, run) == LargestRead(n, run)
  {
    hide Exec, LargestAdded, LargestRead;
    RunIsAccounted(n, run);
    var s := Exec(n, run);
    assert forall g | 0 <= g < |s.pcs| :: s.pcs[g] in s.pcs;
  }

  // ---------- Stale additions come from overlapping calls ----------

  /** The call has decided to add and has not stored its loss yet. */
  predicate Adds(pc: Pc) {
    pc.Loaded? || pc.Added?
  }

  predicate Overlap(s: Shared) {
    exists g, k :: 0 <= g < k < |s.pcs| && Adds(s.pcs[g]) && Adds(s.pcs[k])
  }

  /** At some moment of the run two calls that add had both loaded and not yet stored. */
  predicate EverOverlaps(n: nat, run: seq<Action>) {
    Overlap(Exec(n, run)) || (run != [] && EverOverlaps(n, Front(run)))
  }

  /** With no overlap so far a call that adds is the only one, and loaded the largest loss added. */
  ghost predicate OneAdds(s: Shared, added: nat) {
    && (forall g | 0 <= g < |s.pcs| ::
          match s.pcs[g]
          case Loaded(lost, prev) => s.attributed == prev == added < lost
          case Added(lost) => s.attributed < lost == added
          case _ => true)
    && (s.attributed == added || exists g :: 0 <= g < |s.pcs| && s.pcs[g].Added?)
  }

  /** After an overlap a call on its way is stale already, or two calls loaded and the first to add makes the
      other stale. */
  ghost predicate StaleSoon(s: Shared, added: nat) {
    || (exists g :: 0 <= g < |s.pcs| && s.pcs[g].Loaded? && s.pcs[g].prev < added)
    || (exists g, k :: 0 <= g < k < |s.pcs| && s.pcs[g].Loaded? && s.pcs[k].Loaded?)
  }

  /** One call adds at a time, so the step of a call that does leaves the only trace. */
  lemma OneAddsAfterOwn(s: Shared, g: nat, added: nat)
    requires OneAdds(s, added) && g < |s.pcs|
    requires forall k | 0 <= k < |s.pcs| && k != g :: !Adds(s.pcs[k])
    ensures OneAdds(Next(s, Step(g)), AddedAfter(s, Step(g), added))
  {
    var s' := Next(s, Step(g));
    assert forall k | 0 <= k < |s.pcs| && k != g :: s'.pcs[k] == s.pcs[k];
    assert s.attributed == added || s.pcs[g].Added?;
    assert s.pcs[g].Loaded? ==> s'.pcs[g].Added?;
  }

  lemma OneAddsAfter(s: Shared, a: Action, added: nat)
    requires OneAdds(s, added) && !Overlap(s) && !Overlap(Next(s, a))
    ensures OneAdds(Next(s, a), AddedAfter(s, a, added))
    ensures !IsStale(s, a, added)
  {
    var s' := Next(s, a);
    if a.Step? && a.g < |s.pcs| && (Adds(s.pcs[a.g]) || Adds(s'.pcs[a.g])) {
      assert forall g | 0 <= g < |s.pcs| && g != a.g :: s'.pcs[g] == s.pcs[g];
      assert forall g | 0 <= g < |s.pcs| && g != a.g :: !Adds(s.pcs[g]) by {
        hide Next, OneAdds;
      }
      hide Next, Overlap;
      OneAddsAfterOwn(s, a.g, added);
    } else if s.attributed != added {
      var g :| 0 <= g < |s.pcs| && s.pcs[g].Added?;
      assert s'.pcs[g].Added?;
    }
  }

  lemma StaleSoonAfterOverlap(s: Shared, a: Action, added: nat)
    requires OneAdds(s, added) && !Overlap(s) && Overlap(Next(s, a))
    ensures StaleSoon(Next(s, a), AddedAfter(s, a, added)) && !IsStale(s, a, added)
  {
  }

  lemma StaleSoonAfter(s: Shared, a: Action, added: nat, base: nat)
    requires Bounded(s, added, base) && StaleSoon(s, added) && !IsStale(s, a, added)
    ensures StaleSoon(Next(s, a), AddedAfter(s, a, added))
  {
    var s' := Next(s, a);
    if g :| 0 <= g < |s.pcs| && s.pcs[g].Loaded? && s.pcs[g].prev < added {
      assert s'.pcs[g] == s.pcs[g];
    } else {
      var g, k :| 0 <= g < k < |s.pcs| && s.pcs[g].Loaded? && s.pcs[k].Loaded?;
      assert s.pcs[g] in s.pcs && s.pcs[k] in s.pcs;
      assert a != Step(g) ==> s'.pcs[g] == s.pcs[g];
      assert a != Step(k) ==> s'.pcs[k] == s.pcs[k];
    }
  }

  lemma {:induction false} OverlapsMeanStale(n: nat, run: seq<Action>)
    ensures var s, added := Exec(n, run), LargestAdded(n, run);
      && (!EverOverlaps(n, run) ==> OneAdds(s, added) && !EverStale(n, run))
      && (EverOverlaps(n, run) ==> StaleSoon(s, added) || EverStale(n, run))
  {
    hide Next, Bounded, OneAdds, StaleSoon, Overlap, AddedAfter, IsStale;
    if run == [] {
      NothingAddsAtStart(n);
    } else {
      var s, a := Exec(n, Front(run)), Last(run);
      var added := LargestAdded(n, Front(run));
      OverlapsMeanStale(n, Front(run));
      RunIsBounded(n, Front(run));
      if EverStale(n, run) && EverStale(n, Front(run)) {
      } else if EverOverlaps(n, Front(run)) {
        if !IsStale(s, a, added) {
          StaleSoonAfter(s, a, added, AddedBeforeReset(n, Front(run)));
        }
      } else {
        assert !Overlap(s);
        if Overlap(Next(s, a)) {
          StaleSoonAfterOverlap(s, a, added);
        } else {
          OneAddsAfter(s, a, added);
        }
      }
    }
  }

  lemma NothingAddsAtStart(n: nat)
    ensures var s := Exec(n, []);
      OneAdds(s, 0) && !Overlap(s)
  {
  }

  /** When all calls are over, some addition was stale exactly when two calls that add ever overlapped. */
  lemma StaleIffOverlap(n: nat, run: seq<Action>)
    requires forall pc <- Exec(n, run).pcs :: pc == Idle
    ensures EverStale(n, run) <==> EverOverlaps(n, run)
  {
    hide Exec, EverStale, EverOverlaps;
    OverlapsMeanStale(n, run);
    var s := Exec(n, run);
    assert forall g | 0 <= g < |s.pcs| :: s.pcs[g] in s.pcs;
  }

  lemma ExecTwice(n: nat, run: seq<Action>, a: Action, b: Action)
    ensures Exec(n, run + [a, b]) == Next(Next(Exec(n, run), a), b)
    ensures a.Step? && b.Step? ==> LargestRead(n, run + [a, b]) == LargestRead(n, run)
  {
    assert Front(run + [a, b]) == run + [a] && Front(run + [a]) == run;
  }

  /** Two goroutines one after the other: both read, both load, both add, both store. */
  lemma BothStep(idle: seq<Pc>, lost: nat)
    requires |idle| >= 2 && idle[0] == idle[1] == Idle && lost > 0
    ensures var loads := idle[0 := Sampled(lost)][1 := Sampled(lost)];
      var adds := idle[0 := Loaded(lost, 0)][1 := Loaded(lost, 0)];
      var stores := idle[0 := Added(lost)][1 := Added(lost)];
      && Next(Next(Shared(0, 0, idle), Begin(0, lost)), Begin(1, lost)) == Shared(0, 0, loads)
      && Next(Next(Shared(0, 0, loads), Step(0)), Step(1)) == Shared(0, 0, adds)
      && Next(Next(Shared(0, 0, adds), Step(0)), Step(1)) == Shared(0, 2 * lost, stores)
      && Next(Next(Shared(0, 2 * lost, stores), Step(0)), Step(1)) == Shared(lost, 2 * lost, idle)
  {
    assert Next(Shared(0, 0, idle), Begin(0, lost)) == Shared(0, 0, idle[0 := Sampled(lost)]);
    assert idle[0 := Idle][1 := Idle] == idle;
  }

  lemma BothRead(n: nat, lost: nat)
    requires n >= 2
    ensures LargestRead(n, [Begin(0, lost), Begin(1, lost)]) == lost
  {
    var one, both := [Begin(0, lost)], [Begin(0, lost), Begin(1, lost)];
    assert Front(both) == one && Front(one) == [];
    assert LargestRead(n, one) == ReadAfter(Exec(n, []), Begin(0, lost), LargestRead(n, [])) == lost;
    assert LargestRead(n, both) == ReadAfter(Exec(n, one), Begin(1, lost), LargestRead(n, one));
  }

  /** Two goroutines that read the same loss and both load before either stores count it twice. */
  lemma OverlapCountsTwice(n: nat, lost: nat)
    requires n >= 2 && lost > 0
    ensures var turns := [Step(0), Step(1)];
      var run := [Begin(0, lost), Begin(1, lost)] + turns + turns + turns;
      && LargestRead(n, run) == lost
      && Exec(n, run) == Shared(lost, 2 * lost, Exec(n, []).pcs)
  {
    var begins, turns := [Begin(0, lost), Begin(1, lost)], [Step(0), Step(1)];
    BothStep(Exec(n, []).pcs, lost);
    BothRead(n, lost);
    assert Exec(n, []) == Shared(0, 0, Exec(n, []).pcs);
    hide *;
    ExecTwice(n, [], Begin(0, lost), Begin(1, lost));
    assert [] + begins == begins;
    ExecTwice(n, begins, Step(0), Step(1));
    ExecTwice(n, begins + turns, Step(0), Step(1));
    ExecTwice(n, begins + turns + turns, Step(0), Step(1));
  }
}
