/** Taking a name from a writer at work for another entry is exactly what lets a read come to a foreign payload. */
module StorageForeign {
  import opened Options
  import opened StorageProtocol
  import opened StorageOwnership

  // ----- Undisturbed continuations -----

  /** Steps of writers and readers that begin no write, create nothing and do not fail. */
  predicate Quiet(events: seq<Event>) {
    forall k :: 0 <= k < |events| ==>
                  events[k].WriteSome? || events[k].Close? || events[k].Rename? || ReaderEvent(events[k])
  }

  lemma {:induction false} QuietIsCareful(hash: Bytes -> Bytes, s: State, events: seq<Event>)
    requires Quiet(events)
    ensures Careful(hash, s, events)
    decreases |events|
  {
    if events != [] {
      QuietIsCareful(hash, Step(hash, s, events[0]), events[1..]);
    }
  }

  /** A writer at work has written its file and is about to rename; nothing else has changed. */
  ghost predicate ReadyToRename(hash: Bytes -> Bytes, s: State, t: State, w: nat)
    requires w in s.writers
  {
    var writer := s.writers[w];
    && t.names == s.names && t.readers == s.readers && t.outcomes == s.outcomes
    && t.writers == s.writers[w := writer.(phase := Renaming, offset := |WriterFrame(hash, writer)|)]
    && writer.inode < |s.files| && t.files == s.files[writer.inode := File(w, WriterFrame(hash, writer))]
  }

  lemma WritesTheRest(hash: Bytes -> Bytes, s: State, w: nat)
    requires Placed(hash, s) && InPhase(s, w, Writing)
    ensures var writer, frame := s.writers[w], WriterFrame(hash, s.writers[w]);
            && writer.inode < |s.files|
            && Step(hash, s, WriteSome(w, |frame|))
               == s.(files := s.files[writer.inode := File(w, frame)], writers := s.writers[w := writer.(offset := |frame|)])
  {
    assert WriterPlaced(hash, s, w);
    var writer, frame := s.writers[w], WriterFrame(hash, s.writers[w]);
    assert Slice(frame, writer.offset, writer.offset + |frame|) == frame[writer.offset..];
    assert frame[..writer.offset] + frame[writer.offset..] == frame;
  }

  lemma FinishWriting(hash: Bytes -> Bytes, s: State, w: nat)
    returns (events: seq<Event>)
    requires Placed(hash, s) && AtWork(s, w)
    ensures Quiet(events) && Placed(hash, Run(hash, s, events)) && ReadyToRename(hash, s, Run(hash, s, events), w)
  {
    hide FileOwned, ReaderPlaced, NamesPlaced, Frame, Accept, Taken;
    assert WriterPlaced(hash, s, w);
    var writer, frame := s.writers[w], WriterFrame(hash, s.writers[w]);
    if writer.phase == Renaming {
      events := [];
      assert frame[..|frame|] == frame;
      assert s.files[writer.inode] == File(w, frame);
      assert s.writers[w := writer.(phase := Renaming, offset := |frame|)] == s.writers;
    } else {
      WritesTheRest(hash, s, w);
      StepKeepsPlaced(hash, s, WriteSome(w, |frame|));
      StepKeepsPlaced(hash, Step(hash, s, WriteSome(w, |frame|)), Close(w));
      RunTwo(hash, s, WriteSome(w, |frame|), Close(w));
      events := [WriteSome(w, |frame|), Close(w)];
    }
  }

  lemma RunTwo(hash: Bytes -> Bytes, s: State, d: Event, e: Event)
    ensures Run(hash, s, [d, e]) == Step(hash, Step(hash, s, d), e)
  {
    RunThen(hash, s, [d], e);
    RunThen(hash, s, [], d);
    assert [] + [d] == [d] && [d] + [e] == [d, e];
  }

  lemma {:induction false} UnusedReader(used: set<nat>)
    returns (r: nat)
    ensures r !in used && forall u :: u in used ==> u < r
  {
    r := 0;
    if used != {} {
      var u :| u in used;
      var rest := UnusedReader(used - {u});
      r := if u < rest then rest else u + 1;
      assert forall v :: v in used ==> v == u || v in used - {u};
    }
  }

  function WithReader(s: State, r: nat, reader: Reader): State {
    s.(readers := s.readers[r := reader])
  }

  /** Reading an entry from beginning to end. */
  function ReadOut(r: nat, entry: Entry, identity: Bytes, length: nat): seq<Event> {
    [BeginRead(r, entry, identity), Open(r)] + [ReadSome(r, length), EndOfFile(r)]
  }

  lemma ReadingSteps(hash: Bytes -> Bytes, s: State, r: nat, entry: Entry, identity: Bytes)
    requires r !in s.readers && Published(entry) in s.names && s.names[Published(entry)] < |s.files|
    ensures var i := s.names[Published(entry)];
            && Step(hash, s, BeginRead(r, entry, identity)) == WithReader(s, r, Reading(entry, identity))
            && Step(hash, WithReader(s, r, Reading(entry, identity)), Open(r)) == WithReader(s, r, Opened(entry, identity, i, []))
  {
    hide Accept, Taken, CutTo, Written, WriterFrame, Dead, InPhase, Slice;
  }

  lemma ReadsAll(hash: Bytes -> Bytes, s: State, r: nat, entry: Entry, identity: Bytes, i: nat)
    requires i < |s.files|
    ensures Step(hash, WithReader(s, r, Opened(entry, identity, i, [])), ReadSome(r, |s.files[i].content|))
         == WithReader(s, r, Opened(entry, identity, i, s.files[i].content))
  {
    hide Accept, Taken, CutTo, Written, WriterFrame, Dead, InPhase;
    var data := s.files[i].content;
    assert Slice(data, 0, |data|) == data && [] + data == data;
  }

  /** A reader that reads a whole frame through is given its payload, and it is recorded whose it was. */
  lemma ReadThrough(hash: Bytes -> Bytes, s: State, r: nat, entry: Entry, identity: Bytes, payload: Bytes)
    requires Digest(hash) && |identity| == 32
    requires r !in s.readers && Published(entry) in s.names && s.names[Published(entry)] < |s.files|
    requires s.files[s.names[Published(entry)]].content == Frame(hash, identity, payload)
    ensures var i := s.names[Published(entry)];
            Run(hash, s, ReadOut(r, entry, identity, |s.files[i].content|)).outcomes
            == s.outcomes + [Returned(entry, identity, payload, s.files[i].owner)]
  {
    var i := s.names[Published(entry)];
    var data := s.files[i].content;
    var atStart := WithReader(s, r, Opened(entry, identity, i, []));
    var ended := WithReader(s, r, Opened(entry, identity, i, data));
    ReadingSteps(hash, s, r, entry, identity);
    ReadsAll(hash, s, r, entry, identity, i);
    RunTwo(hash, s, BeginRead(r, entry, identity), Open(r));
    RunTwo(hash, atStart, ReadSome(r, |data|), EndOfFile(r));
    RunAppend(hash, s, [BeginRead(r, entry, identity), Open(r)], [ReadSome(r, |data|), EndOfFile(r)]);
    AcceptFrame(hash, identity, payload, identity);
    assert Taken(hash, ended, r) == Returned(entry, identity, payload, s.files[i].owner);
  }

  // ----- A name taken from a writer at work -----

  /** One writer has created its file under the name of another that is still at work. */
  ghost predicate Clash(hash: Bytes -> Bytes, s: State, w: nat, x: nat) {
    && Placed(hash, s) && w != x && AtWork(s, w) && AtWork(s, x)
    && Temporary(s.writers[w].temporary) in s.names && s.names[Temporary(s.writers[w].temporary)] == s.writers[x].inode
  }

  lemma UnsafeCreationClashes(hash: Bytes -> Bytes, s: State, e: Event, w: nat)
    requires Placed(hash, s) && Creates(s, e) && AtWork(s, w) && s.writers[w].temporary == e.n
    ensures Clash(hash, Step(hash, s, e), w, e.w)
    ensures Step(hash, s, e).writers[w] == s.writers[w]
  {
    StepKeepsPlaced(hash, s, e);
  }

  /** From a clash, both write their files and the one whose name it was renames: its entry then holds the other's. */
  lemma ClashPublishes(hash: Bytes -> Bytes, s: State, w: nat, x: nat)
    returns (events: seq<Event>)
    requires Clash(hash, s, w, x)
    ensures Quiet(events)
    ensures var t := Run(hash, s, events);
            && t.outcomes == s.outcomes && t.readers == s.readers
            && Published(s.writers[w].entry) in t.names && t.names[Published(s.writers[w].entry)] == s.writers[x].inode < |t.files|
            && t.files[s.writers[x].inode] == File(x, WriterFrame(hash, s.writers[x]))
  {
    hide Placed, Accept, Taken, CutTo, Written, Frame, Slice, Dead;
    var first := FinishWriting(hash, s, x);
    var s1 := Run(hash, s, first);
    var second := FinishWriting(hash, s1, w);
    var s2 := Run(hash, s1, second);
    RunAppend(hash, s, first, second);
    RunThen(hash, s, first + second, Rename(w));
    OwnFiles(hash, s, w, x);
    events := first + second + [Rename(w)];
    assert Quiet([Rename(w)]);
  }

  lemma OwnFiles(hash: Bytes -> Bytes, s: State, w: nat, x: nat)
    requires Placed(hash, s) && w != x && AtWork(s, w) && AtWork(s, x)
    ensures s.writers[w].inode != s.writers[x].inode
  {
    assert WriterPlaced(hash, s, w) && WriterPlaced(hash, s, x);
  }

  /** From a clash, an undisturbed continuation ends in a read that is given the other writer's payload. */
  lemma ClashIsRead(hash: Bytes -> Bytes, s: State, w: nat, x: nat)
    returns (events: seq<Event>)
    requires Digest(hash) && Clash(hash, s, w, x) && |s.writers[x].identity| == 32
    ensures Quiet(events)
    ensures Run(hash, s, events).outcomes
         == s.outcomes + [Returned(s.writers[w].entry, s.writers[x].identity, s.writers[x].payload, x)]
  {
    var published := ClashPublishes(hash, s, w, x);
    var t := Run(hash, s, published);
    var entry, identity, payload := s.writers[w].entry, s.writers[x].identity, s.writers[x].payload;
    var r := UnusedReader(t.readers.Keys);
    var reading := ReadOut(r, entry, identity, |Frame(hash, identity, payload)|);
    ReadThrough(hash, t, r, entry, identity, payload);
    RunAppend(hash, s, published, reading);
    events := published + reading;
  }

  /** Nothing that goes on carefully from here comes to a foreign read. */
  ghost predicate Harmless(hash: Bytes -> Bytes, s: State) {
    forall events :: Careful(hash, s, events) ==> AllOfTheirEntry(Run(hash, s, events))
  }

  lemma {:induction false} WritersStay(hash: Bytes -> Bytes, s: State, events: seq<Event>)
    ensures SameJobs(s, Run(hash, s, events))
    decreases |events|
  {
    if events != [] {
      StepKeepsJobs(hash, s, events[0]);
      WritersStay(hash, Step(hash, s, events[0]), events[1..]);
    }
  }

  lemma UnsafeIsHarmful(hash: Bytes -> Bytes, s: State, e: Event)
    requires Digest(hash) && Placed(hash, s) && WritersSound(hash, s.writers) && !SafeName(s, e)
    ensures !Harmless(hash, Step(hash, s, e))
  {
    hide Step, Run, Placed, Clash, CutShows, Quiet, Careful;
    var t := Step(hash, s, e);
    var w :| AtWork(s, w) && s.writers[w].temporary == e.n && s.writers[w].entry != s.writers[e.w].entry;
    UnsafeCreationClashes(hash, s, e, w);
    StepKeepsJobs(hash, s, e);
    var events := ClashIsRead(hash, t, w, e.w);
    QuietIsCareful(hash, t, events);
    WritersStay(hash, t, events);
    var u := Run(hash, t, events);
    assert !OfTheEntry(u, u.outcomes[|t.outcomes|]);
  }

  /** A creation is safe exactly if nothing that goes on carefully after it comes to a foreign read. */
  lemma NameIsSafeIff(hash: Bytes -> Bytes, s: State, e: Event)
    requires Digest(hash) && Kept(hash, s) && WritersSound(hash, s.writers)
    ensures SafeName(s, e) <==> Harmless(hash, Step(hash, s, e))
  {
    if SafeName(s, e) {
      forall events | Careful(hash, Step(hash, s, e), events)
        ensures AllOfTheirEntry(Run(hash, Step(hash, s, e), events))
      {
        StepKeepsOwned(hash, s, e);
        StepKeepsOpened(hash, s, e);
        StepKeepsEntry(hash, s, e);
        ReadsBelongToTheirEntry(hash, Step(hash, s, e), events);
      }
    } else {
      UnsafeIsHarmful(hash, s, e);
    }
  }

  /** No moment of a run leads carefully to a foreign read. */
  ghost predicate HarmlessThroughout(hash: Bytes -> Bytes, s: State, events: seq<Event>) {
    forall n :: 0 < n <= |events| ==> Harmless(hash, Run(hash, s, events[..n]))
  }

  lemma HarmlessFirst(hash: Bytes -> Bytes, s: State, events: seq<Event>)
    requires events != []
    ensures HarmlessThroughout(hash, s, events)
       <==> Harmless(hash, Step(hash, s, events[0])) && HarmlessThroughout(hash, Step(hash, s, events[0]), events[1..])
  {
    var t, rest := Step(hash, s, events[0]), events[1..];
    forall n | 0 <= n <= |rest|
      ensures Run(hash, s, events[..n + 1]) == Run(hash, t, rest[..n])
    {
      assert events[..n + 1][0] == events[0] && events[..n + 1][1..] == rest[..n];
    }
    assert Run(hash, t, rest[..0]) == t;
    if Harmless(hash, t) && HarmlessThroughout(hash, t, rest) {
      forall n | 0 < n <= |events|
        ensures Harmless(hash, Run(hash, s, events[..n]))
      {
        assert Run(hash, s, events[..n - 1 + 1]) == Run(hash, t, rest[..n - 1]);
      }
    }
    if HarmlessThroughout(hash, s, events) {
      assert Harmless(hash, Run(hash, s, events[..0 + 1]));
      forall n | 0 < n <= |rest|
        ensures Harmless(hash, Run(hash, t, rest[..n]))
      {
        assert Harmless(hash, Run(hash, s, events[..n + 1]));
      }
    }
  }

  /** A whole run takes its names with care exactly if no moment of it leads carefully to a foreign read. */
  lemma {:induction false} CarefulIff(hash: Bytes -> Bytes, s: State, events: seq<Event>)
    requires Digest(hash) && Kept(hash, s) && WritersSound(hash, s.writers)
    requires forall k :: 0 <= k < |events| ==> SoundEvent(hash, events[k])
    ensures Careful(hash, s, events) <==> HarmlessThroughout(hash, s, events)
    decreases |events|
  {
    if events != [] {
      NameIsSafeIff(hash, s, events[0]);
      HarmlessFirst(hash, s, events);
      if SafeName(s, events[0]) {
        StepKeepsOwned(hash, s, events[0]);
        StepKeepsOpened(hash, s, events[0]);
        StepKeepsEntry(hash, s, events[0]);
        StepKeepsSound(hash, s, events[0]);
        CarefulIff(hash, Step(hash, s, events[0]), events[1..]);
      }
    }
  }

  // ----- How it comes about without any file being removed from outside -----

  /** A state some run comes to in which nothing is removed from outside and no process or power fails. */
  ghost predicate Reached(hash: Bytes -> Bytes, events: seq<Event>, s: State) {
    && s == Run(hash, EMPTY, events) && Placed(hash, s)
    && forall k :: 0 <= k < |events| ==> !events[k].Remove? && !events[k].Fail? && !events[k].UnlinkFails? && !events[k].Die? && !events[k].PowerLoss?
  }

  lemma Extend(hash: Bytes -> Bytes, events: seq<Event>, s: State, e: Event)
    requires Reached(hash, events, s) && !e.Remove? && !e.Fail? && !e.UnlinkFails? && !e.Die? && !e.PowerLoss?
    ensures Reached(hash, events + [e], Step(hash, s, e))
  {
    RunThen(hash, EMPTY, events, e);
    StepKeepsPlaced(hash, s, e);
  }

  function Begun(s: State, w: nat, entry: Entry, identity: Bytes, payload: Bytes): State {
    s.(writers := s.writers[w := Writer(entry, identity, payload, Creating, 0, 0, 0)])
  }

  function Created(s: State, w: nat, n: nat): State
    requires w in s.writers
  {
    s.(names := s.names[Temporary(n) := |s.files|], bound := s.bound + {(Temporary(n), |s.files|)}, files := s.files + [File(w, [])],
       writers := s.writers[w := s.writers[w].(phase := Writing, temporary := n, inode := |s.files|, offset := 0)])
  }

  lemma CreationSteps(hash: Bytes -> Bytes, s: State, w: nat, n: nat, entry: Entry, identity: Bytes, payload: Bytes)
    requires w !in s.writers && Temporary(n) !in s.names
    ensures Step(hash, s, BeginWrite(w, entry, identity, payload)) == Begun(s, w, entry, identity, payload)
    ensures Step(hash, Begun(s, w, entry, identity, payload), CreateTemporary(w, n)) == Created(Begun(s, w, entry, identity, payload), w, n)
  {
  }

  /** A write up to where it is to be renamed. */
  lemma ExtendWriting(hash: Bytes -> Bytes, events: seq<Event>, s: State, w: nat, n: nat, entry: Entry, identity: Bytes, payload: Bytes)
    returns (more: seq<Event>, t: State)
    requires Reached(hash, events, s) && w !in s.writers && Temporary(n) !in s.names
    ensures Reached(hash, more, t)
    ensures t.names == s.names[Temporary(n) := |s.files|] && |t.files| == |s.files| + 1
    ensures t.readers == s.readers && t.outcomes == s.outcomes
    ensures exists inode, offset :: t.writers == s.writers[w := Writer(entry, identity, payload, Renaming, n, inode, offset)]
  {
    hide Step, Placed;
    var begun := Begun(s, w, entry, identity, payload);
    CreationSteps(hash, s, w, n, entry, identity, payload);
    Extend(hash, events, s, BeginWrite(w, entry, identity, payload));
    Extend(hash, events + [BeginWrite(w, entry, identity, payload)], begun, CreateTemporary(w, n));
    var created := Created(begun, w, n);
    more := events + [BeginWrite(w, entry, identity, payload)] + [CreateTemporary(w, n)];
    var rest := FinishWriting(hash, created, w);
    RunAppend(hash, EMPTY, more, rest);
    more, t := more + rest, Run(hash, created, rest);
    WritersAre(hash, s, created, t, w, n, entry, identity, payload);
  }

  lemma WritersAre(hash: Bytes -> Bytes, s: State, created: State, t: State, w: nat, n: nat, entry: Entry, identity: Bytes, payload: Bytes)
    requires created == Created(Begun(s, w, entry, identity, payload), w, n) && ReadyToRename(hash, created, t, w)
    ensures t.names == s.names[Temporary(n) := |s.files|] && |t.files| == |s.files| + 1
    ensures t.readers == s.readers && t.outcomes == s.outcomes
    ensures exists inode, offset :: t.writers == s.writers[w := Writer(entry, identity, payload, Renaming, n, inode, offset)]
  {
    var writer := t.writers[w];
    assert t.writers == s.writers[w := Writer(entry, identity, payload, Renaming, n, writer.inode, writer.offset)];
  }

  lemma FirstPublishes(hash: Bytes -> Bytes, identity: Bytes, payload: Bytes, mine: Entry)
    returns (events: seq<Event>, s: State)
    ensures Reached(hash, events, s)
    ensures s.names == map[Published(mine) := 0] && s.outcomes == [] && s.writers.Keys == {0}
    ensures s.writers[0].phase == Cleaning && s.writers[0].temporary == 0
  {
    assert Reached(hash, [], EMPTY);
    events, s := ExtendWriting(hash, [], EMPTY, 0, 0, mine, identity, payload);
    Extend(hash, events, s, Rename(0));
    events, s := events + [Rename(0)], Step(hash, s, Rename(0));
  }

  lemma SecondTakesName(hash: Bytes -> Bytes, events: seq<Event>, s: State, identity: Bytes, payload: Bytes, mine: Entry)
    returns (more: seq<Event>, t: State)
    requires Reached(hash, events, s) && 1 !in s.writers && Temporary(0) !in s.names
    ensures Reached(hash, more, t)
    ensures t.names == s.names[Temporary(0) := |s.files|] && t.outcomes == s.outcomes
    ensures t.writers.Keys == s.writers.Keys + {1} && forall w :: w in s.writers ==> t.writers[w] == s.writers[w]
    ensures t.writers[1].phase == Renaming && t.writers[1].temporary == 0 && t.writers[1].entry == mine
  {
    more, t := ExtendWriting(hash, events, s, 1, 0, mine, identity, payload);
  }

  /** Two writers take one name in turn, both with care, and the first one's clean-up removes the second's file. */
  lemma TakeoverOfName(hash: Bytes -> Bytes, identity: Bytes, payload: Bytes, mine: Entry)
    returns (events: seq<Event>, s: State)
    ensures Reached(hash, events, s)
    ensures s.names == map[Published(mine) := 0] && s.outcomes == [] && s.writers.Keys == {0, 1}
    ensures AtWork(s, 1) && s.writers[1].temporary == 0 && s.writers[1].entry == mine
  {
    hide Placed, Run, Reached, Accept, Taken, CutTo, Written, Frame, Slice, Dead;
    events, s := FirstPublishes(hash, identity, payload, mine);
    events, s := SecondTakesName(hash, events, s, identity, payload, mine);
    Extend(hash, events, s, Unlink(0));
    events, s := events + [Unlink(0)], Step(hash, s, Unlink(0));
  }

  /** A third writer then takes the name while the second is still at work under it. */
  lemma ThirdTakesName(hash: Bytes -> Bytes, events: seq<Event>, s: State, identity: Bytes, payload: Bytes, other: Entry)
    returns (more: seq<Event>, t: State)
    requires Reached(hash, events, s) && 2 !in s.writers && Temporary(0) !in s.names
    requires AtWork(s, 1) && s.writers[1].temporary == 0
    ensures Reached(hash, more, t) && Clash(hash, t, 1, 2) && t.outcomes == s.outcomes && t.writers[1].entry == s.writers[1].entry
    ensures t.writers[2].entry == other && t.writers[2].identity == identity && t.writers[2].payload == payload
  {
    hide Step, Placed, Clash;
    CreationSteps(hash, s, 2, 0, other, identity, payload);
    Extend(hash, events, s, BeginWrite(2, other, identity, payload));
    var begun := Begun(s, 2, other, identity, payload);
    UnsafeCreationClashes(hash, begun, CreateTemporary(2, 0), 1);
    Extend(hash, events + [BeginWrite(2, other, identity, payload)], begun, CreateTemporary(2, 0));
    more, t := events + [BeginWrite(2, other, identity, payload)] + [CreateTemporary(2, 0)], Created(begun, 2, 0);
  }

  /** So for all identities, payloads and entries there is a run, with nothing removed from outside, no death and
      no power loss, that ends in a read being given another entry's payload. */
  lemma ReusedNameServesForeignEntry(hash: Bytes -> Bytes, identity: Bytes, payload: Bytes, mine: Entry, other: Entry)
    returns (events: seq<Event>)
    requires Digest(hash) && |identity| == 32 && mine != other
    ensures forall k :: 0 <= k < |events| ==> !events[k].Remove? && !events[k].Fail? && !events[k].UnlinkFails? && !events[k].Die? && !events[k].PowerLoss?
    ensures var s := Run(hash, EMPTY, events);
            s.outcomes == [Returned(mine, identity, payload, 2)] && 2 in s.writers && s.writers[2].entry == other
  {
    hide Step, Placed;
    var s, more;
    events, s := TakeoverOfName(hash, identity, payload, mine);
    events, s := ThirdTakesName(hash, events, s, identity, payload, other);
    more := ClashIsRead(hash, s, 1, 2);
    RunAppend(hash, EMPTY, events, more);
    WritersStay(hash, s, more);
    assert SameJob(s, Run(hash, s, more), 2);
    events := events + more;
  }
}
