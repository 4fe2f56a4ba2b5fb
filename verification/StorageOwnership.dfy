/** What an entry holds was written for it, as long as no name is taken from a writer still at work for another. */
module StorageOwnership {
  import opened Options
  import opened StorageProtocol

  // ----- Names taken with care -----

  /** A writer that may still rename what its temporary name holds. */
  predicate AtWork(s: State, w: nat) {
    w in s.writers && s.writers[w].phase in {Writing, Renaming}
  }

  /** Whether a creation really happens. */
  predicate Creates(s: State, e: Event) {
    e.CreateTemporary? && InPhase(s, e.w, Creating) && Temporary(e.n) !in s.names
  }

  /** A temporary file is not created under the name of a writer at work for another entry. */
  ghost predicate SafeName(s: State, e: Event) {
    Creates(s, e) ==>
      forall v :: AtWork(s, v) && s.writers[v].temporary == e.n ==> s.writers[v].entry == s.writers[e.w].entry
  }

  ghost predicate Careful(hash: Bytes -> Bytes, s: State, events: seq<Event>)
    decreases |events|
  {
    events == [] || (SafeName(s, events[0]) && Careful(hash, Step(hash, s, events[0]), events[1..]))
  }

  /** A file was written for an entry. */
  ghost predicate WrittenFor(s: State, i: nat, entry: Entry) {
    i < |s.files| && s.files[i].owner in s.writers && s.writers[s.files[i].owner].entry == entry
  }

  /** Entries have only ever held files written for them. */
  ghost predicate EntriesOwn(s: State) {
    forall entry, i :: (Published(entry), i) in s.bound ==> WrittenFor(s, i, entry)
  }

  /** What the name of a writer at work holds, if anything, was written for the writer's entry. */
  ghost predicate NameOwn(s: State, w: nat)
    requires w in s.writers
  {
    var name := Temporary(s.writers[w].temporary);
    AtWork(s, w) && name in s.names ==> WrittenFor(s, s.names[name], s.writers[w].entry)
  }

  ghost predicate Owned(hash: Bytes -> Bytes, s: State) {
    Placed(hash, s) && EntriesOwn(s) && forall w :: w in s.writers ==> NameOwn(s, w)
  }

  /** Files keep their owners, and their owners their entries. */
  lemma StepKeepsWrittenFor(hash: Bytes -> Bytes, s: State, e: Event, i: nat, entry: Entry)
    requires WrittenFor(s, i, entry)
    ensures WrittenFor(Step(hash, s, e), i, entry)
  {
    StepKeepsJobs(hash, s, e);
    StepKeepsOwner(hash, s, e, i);
  }

  lemma StepKeepsOwner(hash: Bytes -> Bytes, s: State, e: Event, i: nat)
    requires i < |s.files|
    ensures i < |Step(hash, s, e).files| && Step(hash, s, e).files[i].owner == s.files[i].owner
  {
  }

  /** Only a rename publishes, what the writer's name holds. */
  lemma NewlyPublished(hash: Bytes -> Bytes, s: State, e: Event, entry: Entry, i: nat)
    requires (Published(entry), i) in Step(hash, s, e).bound && (Published(entry), i) !in s.bound
    ensures e.Rename? && InPhase(s, e.w, Renaming) && Temporary(s.writers[e.w].temporary) in s.names
    ensures i == s.names[Temporary(s.writers[e.w].temporary)] && entry == s.writers[e.w].entry
  {
  }

  lemma StepKeepsEntriesOwn(hash: Bytes -> Bytes, s: State, e: Event)
    requires Owned(hash, s)
    ensures EntriesOwn(Step(hash, s, e))
  {
    var t := Step(hash, s, e);
    forall entry, i | (Published(entry), i) in t.bound
      ensures WrittenFor(t, i, entry)
    {
      if (Published(entry), i) !in s.bound {
        NewlyPublished(hash, s, e, entry, i);
        assert NameOwn(s, e.w);
      }
      StepKeepsWrittenFor(hash, s, e, i, entry);
    }
  }

  predicate LosesPower(s: State, e: Event) {
    e.PowerLoss? && e.names.Items <= s.bound && |e.kept| == |s.files|
  }

  /** A writer at work was so before under the same name, or has just created its file. */
  lemma StillAtWork(hash: Bytes -> Bytes, s: State, e: Event, w: nat)
    requires AtWork(Step(hash, s, e), w)
    ensures (Creates(s, e) && e.w == w && Step(hash, s, e).writers[w].temporary == e.n)
         || (AtWork(s, w) && Step(hash, s, e).writers[w].temporary == s.writers[w].temporary && !LosesPower(s, e))
  {
  }

  /** A temporary name is bound as before, or by the creation of its file. */
  lemma StillNamed(hash: Bytes -> Bytes, s: State, e: Event, n: nat)
    requires Temporary(n) in Step(hash, s, e).names && !LosesPower(s, e)
    ensures if Creates(s, e) && e.n == n then Step(hash, s, e).names[Temporary(n)] == |s.files|
            else Temporary(n) in s.names && Step(hash, s, e).names[Temporary(n)] == s.names[Temporary(n)]
  {
  }

  lemma CreatedFor(hash: Bytes -> Bytes, s: State, e: Event)
    requires Creates(s, e)
    ensures WrittenFor(Step(hash, s, e), |s.files|, s.writers[e.w].entry)
    ensures e.n == Step(hash, s, e).writers[e.w].temporary && Step(hash, s, e).writers[e.w].entry == s.writers[e.w].entry
  {
  }

  lemma StepKeepsNameOwn(hash: Bytes -> Bytes, s: State, e: Event, w: nat)
    requires Owned(hash, s) && SafeName(s, e) && w in Step(hash, s, e).writers
    ensures NameOwn(Step(hash, s, e), w)
  {
    var t := Step(hash, s, e);
    if AtWork(t, w) && Temporary(t.writers[w].temporary) in t.names {
      StillAtWork(hash, s, e, w);
      StepKeepsJobs(hash, s, e);
      if Creates(s, e) {
        CreatedFor(hash, s, e);
      }
      if AtWork(s, w) {
        StillNamed(hash, s, e, t.writers[w].temporary);
        assert NameOwn(s, w);
        if Temporary(t.writers[w].temporary) in s.names {
          StepKeepsWrittenFor(hash, s, e, s.names[Temporary(t.writers[w].temporary)], s.writers[w].entry);
        }
      } else {
        StillNamed(hash, s, e, e.n);
      }
    }
  }

  lemma StepKeepsOwned(hash: Bytes -> Bytes, s: State, e: Event)
    requires Owned(hash, s) && SafeName(s, e)
    ensures Owned(hash, Step(hash, s, e))
  {
    StepKeepsPlaced(hash, s, e);
    StepKeepsEntriesOwn(hash, s, e);
    forall w | w in Step(hash, s, e).writers
      ensures NameOwn(Step(hash, s, e), w)
    {
      StepKeepsNameOwn(hash, s, e, w);
    }
  }

  // ----- Reads -----

  /** A payload returned to a reader was written, for the entry it opened, by the owner of the file it read. */
  ghost predicate OfTheEntry(s: State, outcome: Outcome) {
    outcome.Returned? ==> outcome.writer in s.writers && s.writers[outcome.writer].entry == outcome.entry
  }

  ghost predicate AllOfTheirEntry(s: State) {
    forall k :: 0 <= k < |s.outcomes| ==> OfTheEntry(s, s.outcomes[k])
  }

  /** An open file is one its entry has held. */
  ghost predicate OpenedFromEntry(s: State) {
    forall r :: r in s.readers && s.readers[r].Opened? ==> (Published(s.readers[r].entry), s.readers[r].inode) in s.bound
  }

  lemma StepKeepsOpened(hash: Bytes -> Bytes, s: State, e: Event)
    requires Placed(hash, s) && OpenedFromEntry(s)
    ensures OpenedFromEntry(Step(hash, s, e))
  {
  }

  lemma StepKeepsEntry(hash: Bytes -> Bytes, s: State, e: Event)
    requires Owned(hash, s) && OpenedFromEntry(s) && AllOfTheirEntry(s)
    ensures AllOfTheirEntry(Step(hash, s, e))
  {
    hide Step, Accept;
    var t := Step(hash, s, e);
    StepKeepsJobs(hash, s, e);
    OldOutcome(hash, s, e);
    forall k | 0 <= k < |t.outcomes|
      ensures OfTheEntry(t, t.outcomes[k])
    {
      if k < |s.outcomes| {
        assert t.outcomes[k] == s.outcomes[k] && OfTheEntry(s, s.outcomes[k]);
      } else if t.outcomes[k].Returned? {
        NewOutcome(hash, s, e, k);
        assert WrittenFor(s, s.readers[e.r].inode, s.readers[e.r].entry);
      }
    }
  }

  /** Everything a careful run keeps. */
  ghost predicate Kept(hash: Bytes -> Bytes, s: State) {
    Owned(hash, s) && OpenedFromEntry(s) && AllOfTheirEntry(s)
  }

  /** However the processes interleave, fail and lose power, a read of an entry returns nothing or a payload
      written for that very entry; and with `StorageProtocol.ReadsAreWhole`, whole and under the identity
      asked for. */
  lemma {:induction false} ReadsBelongToTheirEntry(hash: Bytes -> Bytes, s: State, events: seq<Event>)
    requires Kept(hash, s) && Careful(hash, s, events)
    ensures Kept(hash, Run(hash, s, events))
    decreases |events|
  {
    if events != [] {
      StepKeepsOwned(hash, s, events[0]);
      StepKeepsOpened(hash, s, events[0]);
      StepKeepsEntry(hash, s, events[0]);
      ReadsBelongToTheirEntry(hash, Step(hash, s, events[0]), events[1..]);
    }
  }
}
