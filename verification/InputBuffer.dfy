/** The buffer between the thread that publishes input and the one that consumes it. */
module InputBuffers {
  import opened InputStates

  /** Sequence numbers handed over by one consume: as a batch, or reported as lost. */
  datatype Range = Range(first: nat, last: nat, lost: bool)

  /** Ranges that follow one another from 1 up to `end` without gap or overlap. */
  ghost predicate Partition(ranges: seq<Range>, end: nat) {
    if ranges == [] then end == 0 else
    var r := ranges[|ranges| - 1];
    r.last == end && 1 <= r.first <= r.last + 1 && Partition(ranges[..|ranges| - 1], r.first - 1)
  }

  ghost predicate Holds(r: Range, n: nat) {
    r.first <= n <= r.last
  }

  lemma {:induction false} PartitionBounds(ranges: seq<Range>, end: nat, i: nat)
    requires Partition(ranges, end) && i < |ranges|
    ensures 1 <= ranges[i].first && ranges[i].last <= end
  {
    if i < |ranges| - 1 {
      PartitionBounds(ranges[..|ranges| - 1], ranges[|ranges| - 1].first - 1, i);
    }
  }

  /** Every number handed over is in exactly one of the ranges. */
  lemma {:induction false} ExactlyOneRange(ranges: seq<Range>, end: nat, n: nat)
    requires Partition(ranges, end) && 1 <= n <= end
    ensures exists i :: 0 <= i < |ranges| && Holds(ranges[i], n)
    ensures forall i, j :: 0 <= i < |ranges| && 0 <= j < |ranges| && Holds(ranges[i], n) && Holds(ranges[j], n) ==> i == j
  {
    var front, r := ranges[..|ranges| - 1], ranges[|ranges| - 1];
    forall i | 0 <= i < |front| ensures front[i].last < r.first {
      PartitionBounds(front, r.first - 1, i);
    }
    assert forall i :: 0 <= i < |front| ==> ranges[i] == front[i];
    if n < r.first {
      ExactlyOneRange(front, r.first - 1, n);
      var i :| 0 <= i < |front| && Holds(front[i], n);
      assert Holds(ranges[i], n);
      assert !Holds(r, n);
    } else {
      assert Holds(r, n);
    }
  }

  /** The events not handed over yet are pending, or lost and told by their numbers. */
  ghost predicate PendingOk(published: seq<InputEvent>, consumed: nat, capacity: nat, overflowed: bool, pending: seq<InputEvent>,
                            firstLost: nat, lastLost: nat)
  {
    && consumed <= |published| && |pending| <= capacity
    && if overflowed then pending == [] && firstLost == consumed + 1 && lastLost == |published| && consumed < |published|
       else pending == published[consumed..]
  }

  /** One more event is appended, or with no room left everything pending is lost with it. */
  lemma PendingNext(published: seq<InputEvent>, consumed: nat, capacity: nat, overflowed: bool, pending: seq<InputEvent>,
                    firstLost: nat, lastLost: nat, event: InputEvent)
    requires PendingOk(published, consumed, capacity, overflowed, pending, firstLost, lastLost) && capacity > 0
    requires forall i :: 0 <= i < |published| ==> published[i].sequence == i + 1
    requires event.sequence == |published| + 1
    ensures overflowed ==>
              PendingOk(published + [event], consumed, capacity, true, pending, firstLost, event.sequence)
    ensures !overflowed && |pending| == capacity ==>
              |published| - consumed == capacity
              && PendingOk(published + [event], consumed, capacity, true, [], pending[0].sequence, event.sequence)
    ensures |pending| <= capacity && (!overflowed ==> |published| - consumed == |pending|)
    ensures !overflowed && |pending| < capacity ==>
              PendingOk(published + [event], consumed, capacity, false, pending + [event], firstLost, lastLost)
  {
    if !overflowed {
      assert (published + [event])[consumed..] == published[consumed..] + [event];
    }
  }

  class InputFrame {
    var events: seq<InputEvent>
    var held: InputState
    var recovered: bool
    var recoveryGeneration: nat
    var firstLostSequence: nat
    var lastLostSequence: nat

    constructor ()
      ensures held == INITIAL && !recovered && events == []
    {
      events, held, recovered := [], INITIAL, false;
      recoveryGeneration, firstLostSequence, lastLostSequence := 0, 0, 0;
    }
  }

  class InputBuffer {
    const capacity: nat
    var sequence: nat
    var pending: seq<InputEvent>
    var mainState: InputState
    var overflowed: bool
    var recoveryGeneration: nat
    var firstLostSequence: nat
    var lastLostSequence: nat
    var presentationState: InputState

    ghost var presented: seq<InputEvent>   // everything shown to the presentation side
    ghost var published: seq<InputEvent>   // everything that entered the buffer
    ghost var consumed: nat                // how much of it was handed over
    ghost var ranges: seq<Range>           // how it was handed over

    ghost predicate Valid()
      reads this
    {
      && capacity > 0
      && consumed <= |published| <= |presented| == sequence <= |published| + 1
      && published <= presented
      && (forall i :: 0 <= i < |presented| ==> presented[i].sequence == i + 1)
      && mainState == Fold(INITIAL, published)
      && presentationState == Fold(INITIAL, presented)
      && PendingOk(published, consumed, capacity, overflowed, pending, firstLostSequence, lastLostSequence)
      && Partition(ranges, consumed)
    }

    /** The frame stands where the last consume left it. */
    ghost predicate Follows(frame: InputFrame)
      reads this, frame
    {
      consumed <= |published| && frame.held == Fold(INITIAL, published[..consumed])
    }

    constructor (capacity: nat)
      requires capacity > 0
      ensures Valid() && published == [] && presented == [] && ranges == [] && consumed == 0
    {
      this.capacity := capacity;
      sequence, pending, mainState, overflowed, recoveryGeneration := 0, [], INITIAL, false, 0;
      firstLostSequence, lastLostSequence, presentationState := 0, 0, INITIAL;
      presented, published, consumed, ranges := [], [], 0, [];
    }

    /** The first half of publishing: the event gets its number and its time and is shown to the presentation side. */
    method Present(event: InputEvent, now: int) returns (stamped: InputEvent)
      requires Valid() && |presented| == |published|
      modifies this`sequence, this`presentationState, this`presented
      ensures Valid() && presented == old(presented) + [stamped]
      ensures stamped == event.(sequence := |presented|, capturedAt := now)
      ensures Shows(presentationState, presented)
    {
      sequence := sequence + 1;
      stamped := event.(sequence := sequence, capturedAt := now);
      presentationState := Apply(presentationState, stamped);
      hide Partition;
      hide Fold;
      hide Apply;
      hide Shows;
      FoldMore(INITIAL, presented, stamped);
      presented := presented + [stamped];
      FoldShows(presented);
    }

    /** The second half: the event enters the buffer, or the buffer overflows. A consume may come in between. */
    method Enqueue(event: InputEvent)
      requires Valid() && |published| < |presented| && event == presented[|published|]
      modifies this`mainState, this`pending, this`overflowed, this`recoveryGeneration, this`firstLostSequence,
               this`lastLostSequence, this`published
      ensures Valid() && published == old(published) + [event] && consumed == old(consumed)
      ensures overflowed <==> old(overflowed) || |old(published)| - consumed == capacity
      ensures recoveryGeneration == old(recoveryGeneration) + if overflowed && !old(overflowed) then 1 else 0
    {
      hide Partition;
      hide Fold;
      hide Apply;
      hide PendingOk;
      FoldMore(INITIAL, published, event);
      PendingNext(published, consumed, capacity, overflowed, pending, firstLostSequence, lastLostSequence, event);
      mainState := Apply(mainState, event);
      if !overflowed && |pending| == capacity {
        overflowed := true;
        recoveryGeneration := recoveryGeneration + 1;
        firstLostSequence := pending[0].sequence;
        pending := [];
      }
      if overflowed {
        lastLostSequence := event.sequence;
      } else {
        pending := pending + [event];
      }
      published := published + [event];
    }

    method Publish(event: InputEvent, now: int)
      requires Valid() && |presented| == |published|
      modifies this
      ensures Valid() && |presented| == |published|
      ensures published == old(published) + [event.(sequence := |published|, capturedAt := now)]
      ensures consumed == old(consumed) && ranges == old(ranges)
    {
      var stamped := Present(event, now);
      Enqueue(stamped);
    }

    /** Hands over everything published since the last consume: the events that change what is held, or,
        after an overflow, the state they lead to and the numbers of the events that are lost. */
    method Consume(frame: InputFrame)
      requires Valid() && Follows(frame)
      modifies frame, this`pending, this`overflowed, this`consumed, this`ranges
      ensures Valid() && Follows(frame)
      ensures consumed == |published|
      ensures frame.held == Fold(INITIAL, published) && Shows(frame.held, published)
      ensures frame.recovered == old(overflowed)
      ensures ranges == old(ranges) + [Range(old(consumed) + 1, |published|, frame.recovered)]
      ensures !frame.recovered ==> frame.events == Kept(old(frame.held), published[old(consumed)..])
                                   && SameHolds(frame.held, Fold(old(frame.held), frame.events))
                                   && exists at :: KeptAt(old(frame.held), published[old(consumed)..], frame.events, at)
      ensures frame.recovered ==> frame.events == [] && frame.firstLostSequence == old(consumed) + 1
                                  && frame.lastLostSequence == |published| && frame.recoveryGeneration == recoveryGeneration
    {
      hide Partition;
      hide Fold;
      hide Apply;
      hide Kept;
      hide SameHolds;
      hide Shows;
      hide ShowsOrNot;
      hide KeptAt;
      ghost var held, batch := frame.held, published[consumed..];
      frame.events, pending := pending, [];
      frame.recovered := overflowed;
      if overflowed {
        frame.recoveryGeneration := recoveryGeneration;
        frame.firstLostSequence := firstLostSequence;
        frame.lastLostSequence := lastLostSequence;
        frame.held := mainState;
        overflowed := false;
      }
      FoldSplit(published, consumed);
      FoldShows(published);
      if !frame.recovered {
        frame.events, frame.held := KeepTaken(frame.events, frame.held);
        KeptReplay(held, batch);
        ghost var at := KeptAre(held, batch);
      }
      RangeAdded(ranges, consumed, |published|, frame.recovered);
      ranges := ranges + [Range(consumed + 1, |published|, frame.recovered)];
      consumed := |published|;
    }
  }

  lemma FoldSplit(published: seq<InputEvent>, consumed: nat)
    requires consumed <= |published|
    ensures Fold(INITIAL, published) == Fold(Fold(INITIAL, published[..consumed]), published[consumed..])
    ensures published[..|published|] == published
  {
    assert published == published[..consumed] + published[consumed..];
    FoldConcat(INITIAL, published[..consumed], published[consumed..]);
  }

  lemma RangeAdded(ranges: seq<Range>, consumed: nat, end: nat, lost: bool)
    requires Partition(ranges, consumed) && consumed <= end
    ensures Partition(ranges + [Range(consumed + 1, end, lost)], end)
  {
    var more := ranges + [Range(consumed + 1, end, lost)];
    assert more[..|more| - 1] == ranges;
  }

  /** Applies the events and keeps, in place, those that change what is held. */
  method KeepTaken(batch: seq<InputEvent>, held: InputState) returns (events: seq<InputEvent>, now: InputState)
    ensures events == Kept(held, batch) && now == Fold(held, batch)
  {
    events, now := batch, held;
    var kept, i := 0, 0;
    while i < |events|
      invariant 0 <= kept <= i <= |events| == |batch|
      invariant now == Fold(held, batch[..i])
      invariant events[..kept] == Kept(held, batch[..i])
      invariant events[i..] == batch[i..]
    {
      assert batch[..i + 1][..i] == batch[..i] && events[i] == batch[i];
      var takes := Takes(now, events[i]);
      now := Apply(now, events[i]);
      if takes {
        events := events[kept := events[i]];
        kept := kept + 1;
      }
      i := i + 1;
    }
    assert batch[..i] == batch;
    events := events[..kept];
  }
}
