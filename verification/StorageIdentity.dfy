/** Where an artifact is kept and what it must have been written for: its slot and its identity. */
module StorageIdentity {
  import opened Options
  import opened StorageProtocol
  import opened StorageOwnership

  // The slot is located by the key; the identity is over compiler, key and validator.

  // ----- Hexadecimal digests -----

  function HexDigit(n: nat): (c: char)
    requires n < 16
  {
    "0123456789abcdef"[n]
  }

  function Hex(data: Bytes): (s: string)
    ensures |s| == 2 * |data|
  {
    if data == [] then [] else [HexDigit(data[0] as int / 16), HexDigit(data[0] as int % 16)] + Hex(data[1..])
  }

  lemma HexDigitInjective(m: nat, n: nat)
    requires m < 16 && n < 16 && HexDigit(m) == HexDigit(n)
    ensures m == n
  {
  }

  lemma HexByteInjective(a: byte, b: byte)
    requires HexDigit(a as int / 16) == HexDigit(b as int / 16) && HexDigit(a as int % 16) == HexDigit(b as int % 16)
    ensures a == b
  {
    HexDigitInjective(a as int / 16, b as int / 16);
    HexDigitInjective(a as int % 16, b as int % 16);
  }

  lemma HexFirst(data: Bytes)
    requires data != []
    ensures Hex(data)[0] == HexDigit(data[0] as int / 16) && Hex(data)[1] == HexDigit(data[0] as int % 16)
    ensures Hex(data)[2..] == Hex(data[1..])
  {
  }

  lemma {:induction false} HexInjective(a: Bytes, b: Bytes)
    requires Hex(a) == Hex(b)
    ensures a == b
  {
    assert |Hex(a)| == 2 * |a| && |Hex(b)| == 2 * |b|;
    if a != [] {
      HexFirst(a);
      HexFirst(b);
      HexByteInjective(a[0], b[0]);
      HexInjective(a[1..], b[1..]);
      assert a == [a[0]] + a[1..] && b == [b[0]] + b[1..];
    }
  }

  /** The number a hexadecimal digit stands for. */
  function DigitValue(c: char): int {
    if '0' <= c <= '9' then c as int - '0' as int else c as int - 'a' as int + 10
  }

  /** Two digits to a byte, the higher one first, in lower case. */
  lemma {:induction false} HexReads(data: Bytes, i: nat)
    requires i < |data|
    ensures var high, low := Hex(data)[2 * i], Hex(data)[2 * i + 1];
            && ('0' <= high <= '9' || 'a' <= high <= 'f') && ('0' <= low <= '9' || 'a' <= low <= 'f')
            && data[i] as int == 16 * DigitValue(high) + DigitValue(low)
  {
    if i == 0 {
      DigitReads(data[0] as int / 16);
      DigitReads(data[0] as int % 16);
    } else {
      HexReads(data[1..], i - 1);
      HexFirst(data);
      assert Hex(data)[2 * i] == Hex(data[1..])[2 * (i - 1)] && Hex(data)[2 * i + 1] == Hex(data[1..])[2 * (i - 1) + 1];
    }
  }

  lemma DigitReads(n: nat)
    requires n < 16
    ensures var c := HexDigit(n); ('0' <= c <= '9' || 'a' <= c <= 'f') && DigitValue(c) == n
  {
  }

  // ----- Locating an artifact -----

  /** What a caller wants kept or found. */
  datatype Wanted = Wanted(compiler: Bytes, key: Bytes, kind: string, validator: Bytes)

  function Identified(wanted: Wanted): Bytes {
    wanted.compiler + wanted.key + wanted.validator
  }

  /** The file name below the cache directory, and the identity. */
  function ArtifactEntry(hash: Bytes -> Bytes, wanted: Wanted): (string, Bytes) {
    (Hex(hash(wanted.key)) + "." + wanted.kind, hash(Identified(wanted)))
  }

  ghost predicate NoCollision(hash: Bytes -> Bytes, a: Bytes, b: Bytes) {
    hash(a) == hash(b) ==> a == b
  }

  /** Slot and identity together determine compiler, key, kind and validator, though key and validator are
      joined without a mark between them. */
  lemma EntryDeterminesWanted(hash: Bytes -> Bytes, a: Wanted, b: Wanted)
    requires Digest(hash) && |a.compiler| == |b.compiler|
    requires NoCollision(hash, a.key, b.key) && NoCollision(hash, Identified(a), Identified(b))
    ensures ArtifactEntry(hash, a) == ArtifactEntry(hash, b) <==> a == b
  {
    if ArtifactEntry(hash, a) == ArtifactEntry(hash, b) {
      var slotA, slotB := Hex(hash(a.key)), Hex(hash(b.key));
      assert (slotA + "." + a.kind)[..64] == slotA && (slotB + "." + b.kind)[..64] == slotB;
      assert (slotA + "." + a.kind)[65..] == a.kind && (slotB + "." + b.kind)[65..] == b.kind;
      HexInjective(hash(a.key), hash(b.key));
      var n, m := |a.compiler|, |a.compiler| + |a.key|;
      assert Identified(a)[..n] == a.compiler && Identified(b)[..n] == b.compiler;
      assert Identified(a)[m..] == a.validator && Identified(b)[m..] == b.validator;
    }
  }

  /** An artifact's file is named by its key and kind alone: what is written for another compiler or validator
      takes the place of what was there. */
  lemma SameSlotIff(hash: Bytes -> Bytes, a: Wanted, b: Wanted)
    requires Digest(hash) && NoCollision(hash, a.key, b.key)
    ensures ArtifactEntry(hash, a).0 == ArtifactEntry(hash, b).0 <==> a.key == b.key && a.kind == b.kind
    ensures EntryOf(hash, a) == EntryOf(hash, b) <==> a.key == b.key && a.kind == b.kind
  {
    var slotA, slotB := Hex(hash(a.key)), Hex(hash(b.key));
    assert (slotA + "." + a.kind)[..64] == slotA && (slotB + "." + b.kind)[..64] == slotB;
    assert (slotA + "." + a.kind)[65..] == a.kind && (slotB + "." + b.kind)[65..] == b.kind;
    if slotA == slotB {
      HexInjective(hash(a.key), hash(b.key));
    }
  }

  /** The identity alone does not: the end of a key can be the beginning of a validator. */
  lemma IdentityAloneIsAmbiguous(hash: Bytes -> Bytes, compiler: Bytes, kind: string, left: Bytes, middle: Bytes, right: Bytes)
    requires middle != []
    ensures var a, b := Wanted(compiler, left + middle, kind, right), Wanted(compiler, left, kind, middle + right);
            a != b && ArtifactEntry(hash, a).1 == ArtifactEntry(hash, b).1
  {
    var a, b := Wanted(compiler, left + middle, kind, right), Wanted(compiler, left, kind, middle + right);
    assert |a.key| != |b.key|;
    assert Identified(a) == Identified(b);
  }

  // ----- Reads and writes of artifacts -----

  function EntryOf(hash: Bytes -> Bytes, wanted: Wanted): Entry {
    Entry(Hex(hash(wanted.key)), wanted.kind)
  }

  /** Each write publishes what some caller wants kept, under its entry and identity. */
  ghost predicate WritesWanted(hash: Bytes -> Bytes, jobs: map<nat, Wanted>, e: Event) {
    e.BeginWrite? ==>
      && e.w in jobs && e.entry == EntryOf(hash, jobs[e.w]) && e.identity == hash(Identified(jobs[e.w]))
      && CutShows(hash, e.payload)
  }

  ghost predicate WritersWanted(hash: Bytes -> Bytes, jobs: map<nat, Wanted>, s: State) {
    forall w :: w in s.writers ==>
                  && w in jobs && s.writers[w].entry == EntryOf(hash, jobs[w])
                  && s.writers[w].identity == hash(Identified(jobs[w]))
  }

  lemma StepKeepsWanted(hash: Bytes -> Bytes, jobs: map<nat, Wanted>, s: State, e: Event)
    requires WritersWanted(hash, jobs, s) && WritesWanted(hash, jobs, e)
    ensures WritersWanted(hash, jobs, Step(hash, s, e))
  {
    StepKeepsJobs(hash, s, e);
    var t := Step(hash, s, e);
    forall w | w in t.writers && w !in s.writers
      ensures w in jobs && t.writers[w].entry == EntryOf(hash, jobs[w]) && t.writers[w].identity == hash(Identified(jobs[w]))
    {
      NewWriter(hash, s, e, w);
    }
  }

  lemma {:induction false} RunKeepsWanted(hash: Bytes -> Bytes, jobs: map<nat, Wanted>, s: State, events: seq<Event>)
    requires WritersWanted(hash, jobs, s) && forall k :: 0 <= k < |events| ==> WritesWanted(hash, jobs, events[k])
    ensures WritersWanted(hash, jobs, Run(hash, s, events))
    decreases |events|
  {
    if events != [] {
      StepKeepsWanted(hash, jobs, s, events[0]);
      RunKeepsWanted(hash, jobs, Step(hash, s, events[0]), events[1..]);
    }
  }

  /** What the jobs of a run and the artifact wanted have to do with one another. */
  ghost predicate Comparable(hash: Bytes -> Bytes, jobs: map<nat, Wanted>, wanted: Wanted) {
    forall w :: w in jobs ==>
                  && |jobs[w].compiler| == |wanted.compiler|
                  && NoCollision(hash, jobs[w].key, wanted.key) && NoCollision(hash, Identified(jobs[w]), Identified(wanted))
  }

  /** What a caller was given was written for exactly what it wants, by the owner of the file it read. */
  ghost predicate GivenAsWanted(jobs: map<nat, Wanted>, s: State, wanted: Wanted, payload: Bytes, w: nat) {
    w in s.writers && w in jobs && jobs[w] == wanted && s.writers[w].payload == payload
  }

  lemma OutcomeAsWanted(hash: Bytes -> Bytes, jobs: map<nat, Wanted>, s: State, wanted: Wanted, payload: Bytes, w: nat)
    requires Digest(hash) && WritersWanted(hash, jobs, s) && AllOfTheirEntry(s) && AllWhole(s) && Comparable(hash, jobs, wanted)
    requires Returned(EntryOf(hash, wanted), hash(Identified(wanted)), payload, w) in s.outcomes
    ensures GivenAsWanted(jobs, s, wanted, payload, w)
  {
    var outcome := Returned(EntryOf(hash, wanted), hash(Identified(wanted)), payload, w);
    var k :| 0 <= k < |s.outcomes| && s.outcomes[k] == outcome;
    assert OfTheEntry(s, s.outcomes[k]) && Whole(s, s.outcomes[k]);
    assert ArtifactEntry(hash, jobs[w]) == ArtifactEntry(hash, wanted);
    EntryDeterminesWanted(hash, jobs[w], wanted);
  }

  /** Everything a careful run starting from here will keep. */
  ghost predicate Sound(hash: Bytes -> Bytes, jobs: map<nat, Wanted>, s: State) {
    Kept(hash, s) && AllWhole(s) && WritersSound(hash, s.writers) && WritersWanted(hash, jobs, s)
  }

  lemma EmptyIsSound(hash: Bytes -> Bytes, jobs: map<nat, Wanted>)
    ensures Sound(hash, jobs, EMPTY)
  {
  }

  /** From an empty cache or any state sound so far, whatever a caller reads was written whole for exactly what
      it wants: the same compiler, key, kind and validator. */
  lemma ReadsAreOfTheArtifactWanted(hash: Bytes -> Bytes, jobs: map<nat, Wanted>, s: State, events: seq<Event>,
                                    wanted: Wanted, payload: Bytes, w: nat)
    requires Digest(hash) && Sound(hash, jobs, s) && Careful(hash, s, events) && Comparable(hash, jobs, wanted)
    requires forall k :: 0 <= k < |events| ==> WritesWanted(hash, jobs, events[k])
    requires Returned(EntryOf(hash, wanted), hash(Identified(wanted)), payload, w) in Run(hash, s, events).outcomes
    ensures GivenAsWanted(jobs, Run(hash, s, events), wanted, payload, w)
  {
    RunKeepsWanted(hash, jobs, s, events);
    forall k | 0 <= k < |events|
      ensures SoundEvent(hash, events[k])
    {
      assert WritesWanted(hash, jobs, events[k]);
    }
    ReadsAreWhole(hash, s, events);
    ReadsBelongToTheirEntry(hash, s, events);
    OutcomeAsWanted(hash, jobs, Run(hash, s, events), wanted, payload, w);
  }
}
