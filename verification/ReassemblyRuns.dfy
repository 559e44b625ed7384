/** Whole runs of a reassembler: excerpts of one stream, in any order, with reads in between. */
module ReassemblyRuns {
  import opened Types
  import opened Reassembly

  datatype Event = Excerpt(data: seq<u8>, index: nat, eof: bool) | Pop(len: nat)
  {
    predicate Covers(i: nat) {
      Excerpt? && index <= i < index + |data|
    }

    /** A piece of `s`, which announces the end only where `s` ends. */
    predicate Of(s: seq<u8>) {
      Excerpt? ==> && index + |data| <= |s| && data == s[index..index + |data|]
                   && (eof ==> index + |data| == |s|)
    }
  }

  function Apply(r: Reassembler, e: Event): Reassembler
    requires r.out.Valid()
  {
    match e
    case Excerpt(data, index, eof) => Push(r, data, index, eof)
    case Pop(len) => r.Read(len)
  }

  lemma ApplyValid(r: Reassembler, e: Event)
    requires r.Valid()
    ensures Apply(r, e).Valid() && r.Edge() <= Apply(r, e).Edge() && r.out.written <= Apply(r, e).out.written
  {
    if e.Excerpt? {
      PushSteps(r, e.data, e.index, e.eof);
    }
  }

  ghost function Run(capacity: nat, events: seq<Event>): (r: Reassembler)
    ensures r.Valid()
  {
    if events == [] then Reassembly.Fresh(capacity)
    else
      var r := Run(capacity, events[..|events| - 1]);
      ApplyValid(r, events[|events| - 1]);
      Apply(r, events[|events| - 1])
  }

  /** Over every run: the buffered and held bytes fit the capacity, and the window's edge never retreats. */
  lemma {:induction false} RunFits(capacity: nat, events: seq<Event>)
    ensures var r := Run(capacity, events);
            && r.out.capacity == capacity && |r.out.written| - r.out.popped + |r.held| <= capacity
  {
    var r := Run(capacity, events);
    CapacityKept(capacity, events);
    HeldFits(r.held.Keys, r.First(), r.Edge());
  }

  lemma {:induction false} CapacityKept(capacity: nat, events: seq<Event>)
    ensures Run(capacity, events).out.capacity == capacity
  {
    if events != [] {
      var n := |events| - 1;
      CapacityKept(capacity, events[..n]);
      var r, e := Run(capacity, events[..n]), events[n];
      if e.Excerpt? { PushSteps(r, e.data, e.index, e.eof); }
    }
  }

  /** A set of indices strictly between two bounds is no larger than the gap. */
  lemma {:induction false} HeldFits(s: set<nat>, lo: nat, hi: nat)
    requires forall i :: i in s ==> lo < i < hi
    ensures s == {} || |s| < hi - lo
    decreases hi
  {
    if s != {} && hi > 0 {
      HeldFits(s - {hi - 1}, lo, hi - 1);
      if hi - 1 in s { assert |s - {hi - 1}| == |s| - 1; } else { assert s - {hi - 1} == s; }
    }
  }

  /** Every excerpt belongs to `s` and is inside the window when it arrives. */
  ghost predicate Legal(capacity: nat, events: seq<Event>, s: seq<u8>) {
    && |s| < TWO64
    && forall k {:trigger events[k]} :: 0 <= k < |events| ==>
         events[k].Of(s) && (events[k].Excerpt? ==> events[k].index + |events[k].data| <= Run(capacity, events[..k]).Edge())
  }

  ghost predicate Covered(events: seq<Event>, i: nat) {
    exists k :: 0 <= k < |events| && events[k].Covers(i)
  }

  ghost predicate Announced(events: seq<Event>) {
    exists k :: 0 <= k < |events| && events[k].Excerpt? && events[k].eof
  }

  /** What the state says about the events so far. */
  ghost predicate Tells(r: Reassembler, events: seq<Event>, s: seq<u8>) {
    && Follows(r, s)
    && (forall i: nat :: r.Knows(i) <==> Covered(events, i))
    && (r.eof <==> Announced(events)) && (r.eof ==> r.eofIndex == |s|)
  }

  lemma CoveredLast(events: seq<Event>, i: nat)
    requires events != []
    ensures var n := |events| - 1; Covered(events, i) <==> Covered(events[..n], i) || events[n].Covers(i)
  {
    var n := |events| - 1;
    forall k | 0 <= k < n ensures events[..n][k] == events[k] {}
    if Covered(events, i) && !events[n].Covers(i) {
      var k :| 0 <= k < |events| && events[k].Covers(i);
      assert events[..n][k].Covers(i);
    }
    if Covered(events[..n], i) {
      var k :| 0 <= k < n && events[..n][k].Covers(i);
      assert events[k].Covers(i);
    }
  }

  lemma AnnouncedLast(events: seq<Event>)
    requires events != []
    ensures var n := |events| - 1;
            Announced(events) <==> Announced(events[..n]) || (events[n].Excerpt? && events[n].eof)
  {
    var n := |events| - 1;
    if Announced(events) && !(events[n].Excerpt? && events[n].eof) {
      var k :| 0 <= k < |events| && events[k].Excerpt? && events[k].eof;
      assert events[..n][k].eof;
    }
    if Announced(events[..n]) {
      var k :| 0 <= k < n && events[..n][k].Excerpt? && events[..n][k].eof;
      assert events[k].eof;
    }
  }

  lemma StepKnows(r: Reassembler, before: seq<Event>, e: Event, s: seq<u8>, i: nat)
    requires r.Valid() && e.Of(s) && (r.Knows(i) <==> Covered(before, i)) && (r.eof ==> r.eofIndex == |s|)
    requires e.Excerpt? ==> e.index + |e.data| <= r.Edge()
    ensures Apply(r, e).Knows(i) <==> Covered(before + [e], i)
  {
    assert (before + [e])[..|before|] == before;
    CoveredLast(before + [e], i);
    if e.Excerpt? && !r.eofed {
      PushKnows(r, e.data, e.index, e.eof, i);
    }
  }

  lemma StepAnnounced(r: Reassembler, before: seq<Event>, e: Event, s: seq<u8>)
    requires r.Valid() && e.Of(s) && |s| < TWO64
    requires (r.eof <==> Announced(before)) && (r.eof ==> r.eofIndex == |s|)
    ensures var r' := Apply(r, e); (r'.eof <==> Announced(before + [e])) && (r'.eof ==> r'.eofIndex == |s|)
  {
    assert Announced(before + [e]) <==> Announced(before) || (e.Excerpt? && e.eof) by {
      assert (before + [e])[..|before|] == before;
      AnnouncedLast(before + [e]);
    }
    if e.Excerpt? { PushEof(r, e.data, e.index, e.eof); }
  }

  lemma StepFollows(r: Reassembler, e: Event, s: seq<u8>)
    requires r.Valid() && Follows(r, s) && e.Of(s)
    ensures Follows(Apply(r, e), s)
  {
    if e.Excerpt? { PushFollows(r, e.data, e.index, e.eof, s); }
  }

  lemma StepTells(r: Reassembler, before: seq<Event>, e: Event, s: seq<u8>)
    requires r.Valid() && Tells(r, before, s) && e.Of(s) && |s| < TWO64
    requires e.Excerpt? ==> e.index + |e.data| <= r.Edge()
    ensures Tells(Apply(r, e), before + [e], s)
  {
    var r' := Apply(r, e);
    StepAnnounced(r, before, e, s);
    StepFollows(r, e, s);
    forall i: nat ensures r'.Knows(i) <==> Covered(before + [e], i) {
      StepKnows(r, before, e, s, i);
    }
  }

  lemma {:induction false} RunTells(capacity: nat, events: seq<Event>, s: seq<u8>)
    requires Legal(capacity, events, s)
    ensures Tells(Run(capacity, events), events, s)
  {
    if events != [] {
      var n := |events| - 1;
      var before := events[..n];
      assert Legal(capacity, before, s) by {
        forall k | 0 <= k < n ensures before[k] == events[k] && before[..k] == events[..k] {}
      }
      RunTells(capacity, before, s);
      StepTells(Run(capacity, before), before, events[n], s);
      assert before + [events[n]] == events;
    }
  }

  /**
   * Completeness: whatever the order, overlap and duplication, what is delivered
   * is `s` up to the least index that no excerpt covers, and the input ends
   * exactly when the end has been announced and reached.
   */
  lemma {:induction false} Completeness(capacity: nat, events: seq<Event>, s: seq<u8>)
    requires Legal(capacity, events, s)
    ensures var r := Run(capacity, events);
            && r.out.written <= s
            && !Covered(events, |r.out.written|) && (forall i: nat :: i < |r.out.written| ==> Covered(events, i))
            && (r.out.ended <==> Announced(events) && |r.out.written| == |s|)
  {
    RunTells(capacity, events, s);
    var r := Run(capacity, events);
    assert !r.Knows(|r.out.written|);
    forall i: nat | i < |r.out.written| ensures Covered(events, i) { assert r.Knows(i); }
  }

  /** Order independence: runs that cover the same indices deliver the same bytes. */
  lemma {:induction false} OrderIndependence(capacity: nat, events: seq<Event>, capacity': nat, events': seq<Event>, s: seq<u8>)
    requires Legal(capacity, events, s) && Legal(capacity', events', s)
    requires forall i: nat :: Covered(events, i) <==> Covered(events', i)
    requires Announced(events) <==> Announced(events')
    ensures Run(capacity, events).out.written == Run(capacity', events').out.written
    ensures Run(capacity, events).out.ended == Run(capacity', events').out.ended
  {
    Completeness(capacity, events, s);
    Completeness(capacity', events', s);
  }
}
