/** Without power losses an entry never shows an unfinished file exactly as long as no name at work is taken. */
module StorageCompleteness {
  import opened Options
  import opened StorageProtocol
  import opened StorageOwnership
  import opened StorageForeign

  // And if no process dies, nothing is left behind.

  /** A file that an entry has held is its writer's whole frame. */
  ghost predicate Complete(hash: Bytes -> Bytes, s: State, i: nat) {
    i < |s.files| && s.files[i].owner in s.writers && s.files[i].content == WriterFrame(hash, s.writers[s.files[i].owner])
  }

  ghost predicate PublishedWhole(hash: Bytes -> Bytes, s: State) {
    forall entry, i :: (Published(entry), i) in s.bound ==> Complete(hash, s, i)
  }

  /** A temporary file is not created under the name of any writer at work. */
  ghost predicate FreeName(s: State, e: Event) {
    Creates(s, e) ==> forall v :: AtWork(s, v) ==> s.writers[v].temporary != e.n
  }

  ghost predicate AllFree(hash: Bytes -> Bytes, s: State, events: seq<Event>)
    decreases |events|
  {
    events == [] || (FreeName(s, events[0]) && AllFree(hash, Step(hash, s, events[0]), events[1..]))
  }

  predicate NoPowerLoss(events: seq<Event>) {
    forall k :: 0 <= k < |events| ==> !events[k].PowerLoss?
  }

  /** What the name of a writer at work holds, if anything, is the writer's own file. */
  ghost predicate NameKept(s: State, w: nat)
    requires w in s.writers
  {
    var name := Temporary(s.writers[w].temporary);
    AtWork(s, w) && name in s.names ==> s.names[name] == s.writers[w].inode
  }

  ghost predicate AllWholeFiles(hash: Bytes -> Bytes, s: State) {
    Placed(hash, s) && PublishedWhole(hash, s) && forall w :: w in s.writers ==> NameKept(s, w)
  }

  lemma WritingKeepsComplete(hash: Bytes -> Bytes, s: State, w: nat, count: nat, i: nat)
    requires Placed(hash, s) && Complete(hash, s, i)
    ensures Complete(hash, Step(hash, s, WriteSome(w, count)), i)
  {
    hide Accept, Taken, CutTo, Frame, Dead, FileOwned, ReaderPlaced, NamesPlaced;
    if InPhase(s, w, Writing) {
      assert WriterPlaced(hash, s, w);
      if s.writers[w].inode == i {
        assert s.files[i].content == WriterFrame(hash, s.writers[w])[..s.writers[w].offset];
        assert |s.files[i].content| == s.writers[w].offset;
        assert Slice(WriterFrame(hash, s.writers[w]), s.writers[w].offset, s.writers[w].offset + count) == [];
      }
    }
  }

  /** No other step changes a file. */
  lemma FileStays(hash: Bytes -> Bytes, s: State, e: Event, i: nat)
    requires i < |s.files| && !e.WriteSome? && !e.PowerLoss?
    ensures i < |Step(hash, s, e).files| && Step(hash, s, e).files[i] == s.files[i]
  {
    hide Accept, Taken, CutTo, WriterFrame, Slice, Written, Dead, Reads, InPhase;
  }

  /** A complete file stays as it is: its writer has nothing left to write. */
  lemma CompleteStays(hash: Bytes -> Bytes, s: State, e: Event, i: nat)
    requires Placed(hash, s) && Complete(hash, s, i) && !e.PowerLoss?
    ensures Complete(hash, Step(hash, s, e), i)
  {
    hide Step, Placed;
    if e.WriteSome? {
      WritingKeepsComplete(hash, s, e.w, e.count, i);
    } else {
      FileStays(hash, s, e, i);
      StepKeepsJobs(hash, s, e);
      assert SameJob(s, Step(hash, s, e), s.files[i].owner);
    }
  }

  lemma RenamedIsComplete(hash: Bytes -> Bytes, s: State, w: nat)
    requires AllWholeFiles(hash, s) && InPhase(s, w, Renaming) && Temporary(s.writers[w].temporary) in s.names
    ensures Complete(hash, s, s.names[Temporary(s.writers[w].temporary)])
  {
    assert WriterPlaced(hash, s, w) && NameKept(s, w);
    assert WriterFrame(hash, s.writers[w])[..s.writers[w].offset] == WriterFrame(hash, s.writers[w]);
  }

  lemma StepKeepsPublishedWhole(hash: Bytes -> Bytes, s: State, e: Event)
    requires AllWholeFiles(hash, s) && !e.PowerLoss?
    ensures PublishedWhole(hash, Step(hash, s, e))
  {
    var t := Step(hash, s, e);
    forall entry, i | (Published(entry), i) in t.bound
      ensures Complete(hash, t, i)
    {
      if (Published(entry), i) !in s.bound {
        NewlyPublished(hash, s, e, entry, i);
        RenamedIsComplete(hash, s, e.w);
      }
      CompleteStays(hash, s, e, i);
    }
  }

  /** A writer that goes on working keeps its file. */
  lemma StillItsFile(hash: Bytes -> Bytes, s: State, e: Event, w: nat)
    requires AtWork(Step(hash, s, e), w) && AtWork(s, w)
    ensures Step(hash, s, e).writers[w].inode == s.writers[w].inode
  {
  }

  lemma CreatedFile(hash: Bytes -> Bytes, s: State, e: Event)
    requires Creates(s, e)
    ensures Step(hash, s, e).writers[e.w].inode == |s.files| && !AtWork(s, e.w)
    ensures Step(hash, s, e).writers[e.w].temporary == e.n
  {
  }

  lemma StepKeepsNameKept(hash: Bytes -> Bytes, s: State, e: Event, w: nat)
    requires AllWholeFiles(hash, s) && FreeName(s, e) && w in Step(hash, s, e).writers
    ensures NameKept(Step(hash, s, e), w)
  {
    var t := Step(hash, s, e);
    if AtWork(t, w) && Temporary(t.writers[w].temporary) in t.names {
      StillAtWork(hash, s, e, w);
      if AtWork(s, w) {
        StillItsFile(hash, s, e, w);
        StillNamed(hash, s, e, t.writers[w].temporary);
        assert NameKept(s, w);
      } else {
        CreatedFile(hash, s, e);
        StillNamed(hash, s, e, e.n);
      }
    }
  }

  lemma StepKeepsWholeFiles(hash: Bytes -> Bytes, s: State, e: Event)
    requires AllWholeFiles(hash, s) && FreeName(s, e) && !e.PowerLoss?
    ensures AllWholeFiles(hash, Step(hash, s, e))
  {
    StepKeepsPlaced(hash, s, e);
    StepKeepsPublishedWhole(hash, s, e);
    forall w | w in Step(hash, s, e).writers
      ensures NameKept(Step(hash, s, e), w)
    {
      StepKeepsNameKept(hash, s, e, w);
    }
  }

  /** However the processes interleave, fail and die, no entry ever shows a file that is not whole, whatever
      the digests of payloads are. */
  lemma {:induction false} PublishedFilesAreWhole(hash: Bytes -> Bytes, s: State, events: seq<Event>)
    requires AllWholeFiles(hash, s) && AllFree(hash, s, events) && NoPowerLoss(events)
    ensures AllWholeFiles(hash, Run(hash, s, events))
    decreases |events|
  {
    if events != [] {
      StepKeepsWholeFiles(hash, s, events[0]);
      PublishedFilesAreWhole(hash, Step(hash, s, events[0]), events[1..]);
    }
  }

  // ----- The condition is exact -----

  /** Nothing that goes on from here without a power loss, creating under free names only, shows an unfinished file. */
  ghost predicate NeverTorn(hash: Bytes -> Bytes, s: State) {
    forall events :: AllFree(hash, s, events) && NoPowerLoss(events) ==> PublishedWhole(hash, Run(hash, s, events))
  }

  lemma {:induction false} QuietIsFree(hash: Bytes -> Bytes, s: State, events: seq<Event>)
    requires Quiet(events)
    ensures AllFree(hash, s, events)
    decreases |events|
  {
    if events != [] {
      QuietIsFree(hash, Step(hash, s, events[0]), events[1..]);
    }
  }

  /** From a clash, the writer whose name was taken publishes the other's file before anything is in it. */
  lemma ClashIsTorn(hash: Bytes -> Bytes, s: State, w: nat, x: nat)
    returns (events: seq<Event>)
    requires Digest(hash) && Clash(hash, s, w, x) && s.writers[x].inode < |s.files| && s.files[s.writers[x].inode] == File(x, [])
    ensures Quiet(events) && !PublishedWhole(hash, Run(hash, s, events))
  {
    var first := FinishWriting(hash, s, w);
    var t := Run(hash, s, first);
    OwnFiles(hash, s, w, x);
    RunThen(hash, s, first, Rename(w));
    events := first + [Rename(w)];
    assert Quiet([Rename(w)]);
    var u := Step(hash, t, Rename(w));
    assert (Published(s.writers[w].entry), s.writers[x].inode) in u.bound;
    assert |WriterFrame(hash, u.writers[x])| >= 32;
    assert !Complete(hash, u, s.writers[x].inode);
  }

  /** A name is free exactly if nothing that goes on after its creation shows an unfinished file. */
  lemma NameIsFreeIff(hash: Bytes -> Bytes, s: State, e: Event)
    requires Digest(hash) && AllWholeFiles(hash, s) && !e.PowerLoss?
    ensures FreeName(s, e) <==> NeverTorn(hash, Step(hash, s, e))
  {
    var t := Step(hash, s, e);
    if FreeName(s, e) {
      StepKeepsWholeFiles(hash, s, e);
      forall events | AllFree(hash, t, events) && NoPowerLoss(events)
        ensures PublishedWhole(hash, Run(hash, t, events))
      {
        PublishedFilesAreWhole(hash, t, events);
      }
    } else {
      var w :| AtWork(s, w) && s.writers[w].temporary == e.n;
      UnsafeCreationClashes(hash, s, e, w);
      CreatedFile(hash, s, e);
      var events := ClashIsTorn(hash, t, w, e.w);
      QuietIsFree(hash, t, events);
      assert NoPowerLoss(events);
    }
  }

  /** Names that are free are taken with care. */
  lemma {:induction false} FreeIsCareful(hash: Bytes -> Bytes, s: State, events: seq<Event>)
    requires AllFree(hash, s, events)
    ensures Careful(hash, s, events)
    decreases |events|
  {
    if events != [] {
      FreeIsCareful(hash, Step(hash, s, events[0]), events[1..]);
    }
  }

  /** While no file is torn and every entry holds its own, a reader that comes to the end of an entry's file gets
      its writer's payload if the writer wrote under the identity asked for, and nothing if under another. */
  lemma PublishedIsReadBack(hash: Bytes -> Bytes, s: State, r: nat)
    requires Digest(hash) && AllWholeFiles(hash, s) && Kept(hash, s)
    requires forall w :: w in s.writers ==> |s.writers[w].identity| == 32
    requires Reads(s, r) && |s.readers[r].data| == |s.files[s.readers[r].inode].content|
    ensures var reader := s.readers[r];
            var w := s.files[reader.inode].owner;
            && w in s.writers && s.writers[w].entry == reader.entry
            && Step(hash, s, EndOfFile(r)).outcomes
               == s.outcomes + [if s.writers[w].identity == reader.identity
                                then Returned(reader.entry, reader.identity, s.writers[w].payload, w)
                                else Missed(reader.entry, reader.identity)]
  {
    var reader := s.readers[r];
    assert ReaderPlaced(s, r);
    assert (Published(reader.entry), reader.inode) in s.bound;
    assert WrittenFor(s, reader.inode, reader.entry) && Complete(hash, s, reader.inode);
    var writer := s.writers[s.files[reader.inode].owner];
    assert reader.data == s.files[reader.inode].content;
    AcceptFrame(hash, writer.identity, writer.payload, reader.identity);
  }

  /** So it is after any run that takes only free names and loses no power. */
  lemma RunIsReadBack(hash: Bytes -> Bytes, s: State, events: seq<Event>, r: nat)
    requires Digest(hash) && AllWholeFiles(hash, s) && Kept(hash, s) && AllFree(hash, s, events) && NoPowerLoss(events)
    requires var t := Run(hash, s, events);
             && (forall w :: w in t.writers ==> |t.writers[w].identity| == 32)
             && Reads(t, r) && |t.readers[r].data| == |t.files[t.readers[r].inode].content|
    ensures var t := Run(hash, s, events);
            var reader := t.readers[r];
            var w := t.files[reader.inode].owner;
            && w in t.writers && t.writers[w].entry == reader.entry
            && Step(hash, t, EndOfFile(r)).outcomes
               == t.outcomes + [if t.writers[w].identity == reader.identity
                                then Returned(reader.entry, reader.identity, t.writers[w].payload, w)
                                else Missed(reader.entry, reader.identity)]
  {
    hide Step, Run, AllWholeFiles, Kept, AllFree, Careful, Frame, Accept;
    FreeIsCareful(hash, s, events);
    PublishedFilesAreWhole(hash, s, events);
    ReadsBelongToTheirEntry(hash, s, events);
    PublishedIsReadBack(hash, Run(hash, s, events), r);
  }

  // ----- Nothing left behind -----

  /** A writer that has yet to remove its temporary name. */
  predicate CleaningUp(s: State, w: nat) {
    w in s.writers && s.writers[w].phase in {Writing, Renaming, Cleaning}
  }

  /** The temporary name a step leaves to nobody: its writer dies, or cannot remove it. */
  function LeftBy(s: State, e: Event): set<nat> {
    if (e.Die? || e.UnlinkFails?) && CleaningUp(s, e.w) then {s.writers[e.w].temporary} else {}
  }

  function LeftDuring(hash: Bytes -> Bytes, s: State, events: seq<Event>): set<nat>
    decreases |events|
  {
    if events == [] then {} else LeftBy(s, events[0]) + LeftDuring(hash, Step(hash, s, events[0]), events[1..])
  }

  /** Every temporary name belongs to a writer that has yet to clean up, or has been left behind. */
  ghost predicate Tidy(s: State, left: set<nat>) {
    forall n :: Temporary(n) in s.names ==> HasCleaner(s, n) || n in left
  }

  ghost predicate HasCleaner(s: State, n: nat) {
    exists w :: CleaningUp(s, w) && s.writers[w].temporary == n
  }

  lemma StillCleaningUp(hash: Bytes -> Bytes, s: State, e: Event, w: nat)
    requires CleaningUp(s, w) && !e.PowerLoss? && !((e.Die? || e.Unlink? || e.UnlinkFails?) && e.w == w)
    ensures CleaningUp(Step(hash, s, e), w) && Step(hash, s, e).writers[w].temporary == s.writers[w].temporary
  {
    hide Accept, Taken, CutTo, WriterFrame, Slice, Dead, Reads;
  }

  lemma UnlinkRemoves(hash: Bytes -> Bytes, s: State, w: nat)
    requires CleaningUp(s, w)
    ensures if s.writers[w].phase == Cleaning then Temporary(s.writers[w].temporary) !in Step(hash, s, Unlink(w)).names
            else Step(hash, s, Unlink(w)) == s
  {
  }

  lemma CleanerStays(hash: Bytes -> Bytes, s: State, e: Event, n: nat)
    requires HasCleaner(s, n) && !e.PowerLoss? && Temporary(n) in Step(hash, s, e).names && n !in LeftBy(s, e)
    ensures HasCleaner(Step(hash, s, e), n)
  {
    hide Step;
    var w :| CleaningUp(s, w) && s.writers[w].temporary == n;
    if e.Unlink? && e.w == w {
      UnlinkRemoves(hash, s, w);
    } else {
      StillCleaningUp(hash, s, e, w);
    }
  }

  lemma NewTemporary(hash: Bytes -> Bytes, s: State, e: Event, n: nat)
    requires !e.PowerLoss? && Temporary(n) in Step(hash, s, e).names && Temporary(n) !in s.names
    ensures HasCleaner(Step(hash, s, e), n)
  {
    hide Accept, Taken, CutTo, WriterFrame, Slice, Dead, Reads;
    var t := Step(hash, s, e);
    assert e.CreateTemporary? && e.n == n && CleaningUp(t, e.w) && t.writers[e.w].temporary == n;
  }

  lemma StepKeepsTidy(hash: Bytes -> Bytes, s: State, e: Event, left: set<nat>)
    requires Tidy(s, left) && !e.PowerLoss?
    ensures Tidy(Step(hash, s, e), left + LeftBy(s, e))
  {
    hide Step, HasCleaner, LeftBy;
    forall n | Temporary(n) in Step(hash, s, e).names
      ensures HasCleaner(Step(hash, s, e), n) || n in left + LeftBy(s, e)
    {
      if Temporary(n) !in s.names {
        NewTemporary(hash, s, e, n);
      } else if n !in left + LeftBy(s, e) {
        CleanerStays(hash, s, e, n);
      }
    }
  }

  lemma {:induction false} RunKeepsTidy(hash: Bytes -> Bytes, s: State, events: seq<Event>, left: set<nat>)
    requires Tidy(s, left) && NoPowerLoss(events)
    ensures Tidy(Run(hash, s, events), left + LeftDuring(hash, s, events))
    decreases |events|
  {
    if events == [] {
      assert left + {} == left;
    } else {
      var rest := LeftDuring(hash, Step(hash, s, events[0]), events[1..]);
      StepKeepsTidy(hash, s, events[0], left);
      RunKeepsTidy(hash, Step(hash, s, events[0]), events[1..], left + LeftBy(s, events[0]));
      assert (left + LeftBy(s, events[0])) + rest == left + (LeftBy(s, events[0]) + rest);
    }
  }

  /** Failing or not, once every writer has finished the only temporary files left are those of writers that died
      or could not remove their name. */
  lemma {:induction false} NoTemporaryFilesLeft(hash: Bytes -> Bytes, s: State, events: seq<Event>)
    requires Tidy(s, {}) && NoPowerLoss(events)
    requires forall w :: w in Run(hash, s, events).writers ==> Run(hash, s, events).writers[w].phase == Finished
    ensures forall n :: Temporary(n) in Run(hash, s, events).names ==> n in LeftDuring(hash, s, events)
  {
    hide Step, LeftBy;
    RunKeepsTidy(hash, s, events, {});
    assert {} + LeftDuring(hash, s, events) == LeftDuring(hash, s, events);
  }
}
