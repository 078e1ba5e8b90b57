/**
 Which of the tracker's duplicate answers are wrong, and what the duplicate count of any run adds up to.
 */
module DuplicateAnswers {
  import opened Helpers
  import opened SequenceTracking
  import opened TrackingLaws

  /** Every arrival of x so far made the window slide. */
  ghost predicate OnlySlid(w: nat, ss: seq<Sequence>, x: Sequence)
    requires ss != []
  {
    && (Last(ss) == x ==> |ss| > 1 && LastOutcome(w, ss) == Slid)
    && (|ss| > 1 ==> OnlySlid(w, Front(ss), x))
  }

  lemma {:induction false} UnsettledOnlySlid(w: nat, ss: seq<Sequence>, x: Sequence)
    requires ss != [] && x >= ss[0]
    requires x !in MarkedIn(w, ss) && x !in RecoveredIn(w, ss) && x !in SkippedIn(w, ss)
    ensures OnlySlid(w, ss, x)
  {
    hide Run, Classify, JumpedOver;
    if |ss| > 1 {
      UnsettledOnlySlid(w, Front(ss), x);
      DuplicateMeaning(w, Front(ss), x);
    }
  }

  lemma {:induction false} OnlySlidIsUnsettled(w: nat, ss: seq<Sequence>, x: Sequence)
    requires ss != [] && OnlySlid(w, ss, x)
    ensures x !in MarkedIn(w, ss) && x !in RecoveredIn(w, ss)
    ensures x in ss ==> x >= ss[0]
  {
    hide Run, JumpedOver;
    if |ss| > 1 {
      OnlySlidIsUnsettled(w, Front(ss), x);
      RunIsConsistent(w, Front(ss));
      FrontAndLast(ss);
    }
  }

  /** An arrival that is new is wrongly called a duplicate. */
  ghost predicate FalseDuplicate(w: nat, before: seq<Sequence>, s: Sequence)
    requires before != []
  {
    s !in before && (s < before[0] || s in SkippedIn(w, before))
  }

  /** An arrival that came before is not called a duplicate. */
  ghost predicate MissedRepeat(w: nat, before: seq<Sequence>, s: Sequence)
    requires before != []
  {
    s in before && OnlySlid(w, before, s) && s !in SkippedIn(w, before)
  }

  /** The duplicate answer is wrong exactly for a new sequence below the first arrival or skipped, and for
      a repeated one whose arrivals all triggered slides and that was not skipped since. */
  lemma AnswerIsWrongIff(w: nat, before: seq<Sequence>, s: Sequence)
    requires before != []
    ensures var answer := IsDuplicate(Classify(w, Run(w, before), s));
      && (answer && s !in before <==> FalseDuplicate(w, before, s))
      && (!answer && s in before <==> MissedRepeat(w, before, s))
  {
    hide Run, Classify, IsDuplicate, OnlySlid;
    DuplicateMeaning(w, before, s);
    SettledCameBefore(w, before);
    if OnlySlid(w, before, s) {
      OnlySlidIsUnsettled(w, before, s);
    } else if s >= before[0] && s !in MarkedIn(w, before) && s !in RecoveredIn(w, before)
              && s !in SkippedIn(w, before) {
      UnsettledOnlySlid(w, before, s);
    }
  }

  lemma {:induction false} SettledCameBefore(w: nat, ss: seq<Sequence>)
    requires ss != []
    ensures forall x | x in MarkedIn(w, ss) || x in RecoveredIn(w, ss) :: x in ss
  {
    if |ss| > 1 {
      SettledCameBefore(w, Front(ss));
      FrontAndLast(ss);
    }
  }

  /** How many arrivals of a run are wrongly called duplicates, and how many repeats are missed. */
  ghost function FalseDuplicates(w: nat, ss: seq<Sequence>): nat
    requires ss != []
  {
    if |ss| == 1 then 0
    else FalseDuplicates(w, Front(ss)) + if FalseDuplicate(w, Front(ss), Last(ss)) then 1 else 0
  }

  ghost function MissedRepeats(w: nat, ss: seq<Sequence>): nat
    requires ss != []
  {
    if |ss| == 1 then 0
    else MissedRepeats(w, Front(ss)) + if MissedRepeat(w, Front(ss), Last(ss)) then 1 else 0
  }

  lemma OneMoreElement(ss: seq<Sequence>)
    requires |ss| > 1
    ensures |Elements(ss)| == |Elements(Front(ss))| + if Last(ss) in Front(ss) then 0 else 1
  {
    FrontAndLast(ss);
    if Last(ss) in Front(ss) {
      assert Elements(ss) == Elements(Front(ss));
    } else {
      assert Elements(ss) == Elements(Front(ss)) + {Last(ss)};
    }
  }

  lemma RecordCountsDuplicate(w: nat, p: Producer, s: Sequence)
    ensures var q := Record(w, p, s);
      q.received == p.received + 1
      && q.duplicates == p.duplicates + if IsDuplicate(Classify(w, p, s)) then 1 else 0
  {
  }

  /** What the counters of every run add up to. */
  lemma {:induction false} DuplicatesAddUp(w: nat, ss: seq<Sequence>)
    requires ss != []
    ensures Run(w, ss).received + FalseDuplicates(w, ss) ==
      |Elements(ss)| + Run(w, ss).duplicates + MissedRepeats(w, ss)
  {
    hide Record, Classify, IsDuplicate, FalseDuplicate, MissedRepeat, Elements;
    if |ss| == 1 {
      OneElement(ss);
    } else {
      DuplicatesAddUp(w, Front(ss));
      RecordCountsDuplicate(w, Run(w, Front(ss)), Last(ss));
      AnswerIsWrongIff(w, Front(ss), Last(ss));
      WrongWay(w, Front(ss), Last(ss));
      OneMoreElement(ss);
    }
  }

  lemma OneElement(ss: seq<Sequence>)
    requires |ss| == 1
    ensures |Elements(ss)| == 1
  {
    assert Elements(ss) == {ss[0]};
  }

  lemma WrongWay(w: nat, before: seq<Sequence>, s: Sequence)
    requires before != []
    ensures FalseDuplicate(w, before, s) ==> s !in before
    ensures MissedRepeat(w, before, s) ==> s in before
  {
  }

  /** The duplicate count of a run is the number of arrivals beyond the first of each sequence exactly when
      as many arrivals are wrongly called duplicates as repeats are missed. */
  lemma DuplicateCountIsRightIff(w: nat, ss: seq<Sequence>)
    requires ss != []
    ensures Run(w, ss).received == |Elements(ss)| + Run(w, ss).duplicates
            <==> FalseDuplicates(w, ss) == MissedRepeats(w, ss)
  {
    hide Run, FalseDuplicates, MissedRepeats;
    DuplicatesAddUp(w, ss);
  }

  // ---------- Two runs that leave the window ----------

  lemma RunOfOne(w: nat, b: Sequence)
    ensures Run(w, [b]) == First(b)
  {
  }

  lemma TriggerAtEdge(w: nat, before: seq<Sequence>, b: Sequence)
    requires before != [] && w > 0 && b + w + 1 < TWO_TO_THE_64 && Run(w, before).high == b
    ensures Run(w, before + [b + w + 1]) == Counted(Run(w, before), b + w + 1)
  {
    hide Run;
    RunSnoc(w, before, b + w + 1);
  }

  /** The edge of the window arriving twice is never called a duplicate, in a run that starts at its least. */
  lemma RepeatedTriggerIsMissed(w: nat, b: Sequence)
    requires w > 0 && b + w + 1 < TWO_TO_THE_64
    ensures var ss := [b, b + w + 1, b + w + 1];
      && (forall x <- ss :: ss[0] <= x)
      && Run(w, ss).received == 3 && Run(w, ss).duplicates == 0 && |Elements(ss)| == 2
  {
    hide Run;
    var s := b + w + 1;
    RunOfOne(w, b);
    TriggerAtEdge(w, [b], b);
    TriggerAtEdge(w, [b] + [s], b);
    assert [b] + [s] + [s] == [b, s, s];
    assert Elements([b, s, s]) == {b, s};
  }

  /** A run that does not start at its least, with a right count: a false duplicate makes up for the repeat. */
  lemma WrongAnswersCanCancel(w: nat, b: Sequence, low: Sequence)
    requires w > 0 && low < b && b + w + 1 < TWO_TO_THE_64
    ensures var ss := [b, low, b + w + 1, b + w + 1];
      Run(w, ss).received == |Elements(ss)| + Run(w, ss).duplicates == 4
  {
    hide Run, Record;
    var s := b + w + 1;
    RunOfOne(w, b);
    RunSnoc(w, [b], low);
    LowIsDuplicate(w, First(b), low);
    TriggerAtEdge(w, [b] + [low], b);
    TriggerAtEdge(w, [b] + [low] + [s], b);
    assert [b] + [low] + [s] + [s] == [b, low, s, s];
    assert Elements([b, low, s, s]) == {b, low, s};
  }

  lemma LowIsDuplicate(w: nat, p: Producer, low: Sequence)
    requires low < p.high && low !in p.pending
    ensures var q := Record(w, p, low);
      q.high == p.high && q.received == p.received + 1 && q.duplicates == p.duplicates + 1
  {
  }

  // ---------- Runs that stay inside the window ----------

  lemma {:induction false} WindowAnswers(w: nat, ss: seq<Sequence>)
    requires ss != [] && StaysInWindow(w, ss)
    ensures MissedRepeats(w, ss) == 0
    ensures FalseDuplicates(w, ss) == 0 <==> forall x <- ss :: ss[0] <= x
  {
    hide Run, OnlySlid;
    if |ss| > 1 {
      var before := Front(ss);
      WindowAnswers(w, before);
      WindowLosesNothing(w, before);
      WindowMarksArrivals(w, before);
      FrontAndLast(ss);
      if OnlySlid(w, before, Last(ss)) {
        OnlySlidIsUnsettled(w, before, Last(ss));
      }
    }
  }

  /** In such a run no repeat is missed, so the count is right exactly when the first arrival is the least. */
  lemma DuplicateCountIsExactIff(w: nat, ss: seq<Sequence>)
    requires ss != [] && StaysInWindow(w, ss)
    ensures Run(w, ss).received == |Elements(ss)| + Run(w, ss).duplicates <==> forall x <- ss :: ss[0] <= x
  {
    hide Run, FalseDuplicates, MissedRepeats, StaysInWindow;
    WindowAnswers(w, ss);
    DuplicateCountIsRightIff(w, ss);
  }

  /** Two deliveries of the same arrivals that both start at the least and stay inside the window end
      with the same watermark, window, received and duplicate counts. */
  lemma OrderIndependence(w: nat, ss: seq<Sequence>, tt: seq<Sequence>)
    requires ss != [] && tt != [] && StaysInWindow(w, ss) && StaysInWindow(w, tt)
    requires multiset(ss) == multiset(tt)
    requires (forall x <- ss :: ss[0] <= x) && (forall x <- tt :: tt[0] <= x)
    ensures var p, q := Run(w, ss), Run(w, tt);
      && p.high == q.high && p.ahead == q.ahead
      && p.received == q.received && p.duplicates == q.duplicates
      && p.pending == q.pending == {}
  {
    hide Record;
    assert forall x :: x in ss <==> x in tt by {
      assert forall x :: x in ss <==> x in multiset(ss);
      assert forall x :: x in tt <==> x in multiset(tt);
    }
    assert |ss| == |multiset(ss)| == |multiset(tt)| == |tt|;
    assert Elements(ss) == Elements(tt);
    assert ss[0] in tt && tt[0] in ss;
    var p, q := Run(w, ss), Run(w, tt);
    WindowIsExact(w, ss);
    WindowIsExact(w, tt);
    WindowLosesNothing(w, ss);
    WindowLosesNothing(w, tt);
    DuplicateCountIsExactIff(w, ss);
    DuplicateCountIsExactIff(w, tt);
    ArrivalsAreConserved(w, ss);
    ArrivalsAreConserved(w, tt);
  }
}
