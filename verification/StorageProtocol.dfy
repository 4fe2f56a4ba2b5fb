/** Publishing and reading cache entries by temporary file and rename, in every interleaving of many processes. */
module StorageProtocol {
  import opened Options

  // Writers fail or die anywhere, files are removed from outside, and power losses undo renames and cut files
  // short.

  newtype byte = x: int | 0 <= x < 256

  type Bytes = seq<byte>

  // ----- Frames -----

  /** A digest function gives 32 bytes. */
  ghost predicate Digest(hash: Bytes -> Bytes) {
    forall data: Bytes :: |hash(data)| == 32
  }

  /** Cutting a payload short changes its digest. */
  ghost predicate CutShows(hash: Bytes -> Bytes, payload: Bytes) {
    forall n :: 0 <= n < |payload| ==> hash(payload[..n]) != hash(payload)
  }

  function Frame(hash: Bytes -> Bytes, identity: Bytes, payload: Bytes): Bytes {
    identity + hash(payload) + payload
  }

  /** A slice that tolerates ends beyond the data, as Python's does. */
  function Slice(data: Bytes, from: nat, to: nat): Bytes
    requires from <= to
  {
    var end := if to <= |data| then to else |data|;
    if from <= end then data[from..end] else []
  }

  /** The payload of a complete, compatible frame. */
  function Accept(hash: Bytes -> Bytes, identity: Bytes, data: Bytes): Option<Bytes> {
    var payload := Slice(data, 64, 64 + |data|);
    if Slice(data, 0, 32) != identity || Slice(data, 32, 64) != hash(payload) then None else Some(payload)
  }

  lemma AcceptFrame(hash: Bytes -> Bytes, identity: Bytes, payload: Bytes, wanted: Bytes)
    requires Digest(hash) && |identity| == 32
    ensures Accept(hash, wanted, Frame(hash, identity, payload)) == if identity == wanted then Some(payload) else None
  {
    var data := Frame(hash, identity, payload);
    assert Slice(data, 0, 32) == identity;
    assert Slice(data, 32, 64) == hash(payload);
    assert Slice(data, 64, 64 + |data|) == payload;
  }

  /** A payload is taken from exactly one text: the identity, the payload's digest and the payload. */
  lemma AcceptIff(hash: Bytes -> Bytes, identity: Bytes, data: Bytes, payload: Bytes)
    requires Digest(hash) && |identity| == 32
    ensures Accept(hash, identity, data) == Some(payload) <==> data == identity + hash(payload) + payload
  {
    if Accept(hash, identity, data) == Some(payload) {
      assert |Slice(data, 32, 64)| == 32;
      assert payload == data[64..] && hash(payload) == data[32..64] && identity == data[..32];
    } else if data == identity + hash(payload) + payload {
      AcceptFrame(hash, identity, payload, identity);
    }
  }

  /** A frame cut short anywhere is taken only if nothing of it is missing. */
  lemma AcceptCutFrame(hash: Bytes -> Bytes, identity: Bytes, payload: Bytes, wanted: Bytes, data: Bytes)
    requires Digest(hash) && |identity| == 32 && CutShows(hash, payload) && data <= Frame(hash, identity, payload)
    requires Accept(hash, wanted, data).Some?
    ensures identity == wanted && Accept(hash, wanted, data).value == payload
  {
    var frame := Frame(hash, identity, payload);
    var got := Accept(hash, wanted, data).value;
    assert |Slice(data, 32, 64)| == 32;
    assert got == data[64..] == frame[64..|data|];
    assert frame[64..] == payload;
    assert got == payload[..|got|];
    assert Slice(data, 32, 64) == frame[32..64] == hash(payload);
    assert |got| == |payload|;
    assert data == frame;
    AcceptFrame(hash, identity, payload, wanted);
  }

  // ----- States -----

  datatype Entry = Entry(slot: string, kind: string)

  /** The names of the cache directory. */
  datatype Name = Temporary(n: nat) | Published(entry: Entry)

  /** A file's content and the writer that created it. */
  datatype File = File(owner: nat, content: Bytes)

  datatype Phase = Creating | Writing | Renaming | Cleaning | Finished

  datatype Writer = Writer(entry: Entry, identity: Bytes, payload: Bytes, phase: Phase, temporary: nat, inode: nat, offset: nat)

  datatype Reader = Reading(entry: Entry, identity: Bytes) | Opened(entry: Entry, identity: Bytes, inode: nat, data: Bytes) | Closed

  /** What a read came to. Whose file was read is recorded, though the reader does not see it. */
  datatype Outcome =
    | Missed(entry: Entry, identity: Bytes)
    | Returned(entry: Entry, identity: Bytes, payload: Bytes, writer: nat)

  /** The directory, every (name, file) pair it has ever held, the files, the processes, and what reads returned. */
  datatype State = State(names: map<Name, nat>, bound: set<(Name, nat)>, files: seq<File>,
                         writers: map<nat, Writer>, readers: map<nat, Reader>, outcomes: seq<Outcome>)

  const EMPTY := State(map[], {}, [], map[], map[], [])

  datatype Event =
    | BeginWrite(w: nat, entry: Entry, identity: Bytes, payload: Bytes)
    | CreateTemporary(w: nat, n: nat)
    | WriteSome(w: nat, count: nat)
    | Close(w: nat)
    | Rename(w: nat)
    | Fail(w: nat)
    | Unlink(w: nat)
    | UnlinkFails(w: nat)
    | Die(w: nat)
    | BeginRead(r: nat, entry: Entry, identity: Bytes)
    | Open(r: nat)
    | ReadSome(r: nat, count: nat)
    | EndOfFile(r: nat)
    | ReadError(r: nat)
    | Remove(name: Name)
    | PowerLoss(names: map<Name, nat>, kept: seq<nat>)

  function Dead(writers: map<nat, Writer>): map<nat, Writer> {
    map w | w in writers :: writers[w].(phase := Finished)
  }

  predicate InPhase(s: State, w: nat, phase: Phase) {
    w in s.writers && s.writers[w].phase == phase
  }

  predicate Reads(s: State, r: nat) {
    r in s.readers && s.readers[r].Opened? && s.readers[r].inode < |s.files|
  }

  function CutTo(file: File, length: nat): File {
    if length < |file.content| then file.(content := file.content[..length]) else file
  }

  function Answer(s: State, r: nat, outcome: Outcome): State {
    s.(readers := s.readers[r := Closed], outcomes := s.outcomes + [outcome])
  }

  /** What a reader that has come to the end of its file takes from it. */
  function Taken(hash: Bytes -> Bytes, s: State, r: nat): Outcome
    requires Reads(s, r)
  {
    var reader := s.readers[r];
    match Accept(hash, reader.identity, reader.data)
    case None => Missed(reader.entry, reader.identity)
    case Some(payload) => Returned(reader.entry, reader.identity, payload, s.files[reader.inode].owner)
  }

  /** One step of the system; an event that cannot happen changes nothing. */
  function Step(hash: Bytes -> Bytes, s: State, e: Event): State {
    match e
    case BeginWrite(w, entry, identity, payload) =>
      if w in s.writers then s else s.(writers := s.writers[w := Writer(entry, identity, payload, Creating, 0, 0, 0)])
    case CreateTemporary(w, n) =>
      if !InPhase(s, w, Creating) || Temporary(n) in s.names then s
      else
        var inode := |s.files|;
        s.(names := s.names[Temporary(n) := inode], bound := s.bound + {(Temporary(n), inode)}, files := s.files + [File(w, [])],
           writers := s.writers[w := s.writers[w].(phase := Writing, temporary := n, inode := inode, offset := 0)])
    case WriteSome(w, count) => Written(hash, s, w, count)
    case Close(w) =>
      if !InPhase(s, w, Writing) || s.writers[w].offset != |WriterFrame(hash, s.writers[w])| then s
      else s.(writers := s.writers[w := s.writers[w].(phase := Renaming)])
    case Rename(w) =>
      if !InPhase(s, w, Renaming) then s
      else
        var from, to := Temporary(s.writers[w].temporary), Published(s.writers[w].entry);
        var cleaning := s.writers[w := s.writers[w].(phase := Cleaning)];
        if from !in s.names then s.(writers := cleaning)
        else s.(names := (s.names - {from})[to := s.names[from]], bound := s.bound + {(to, s.names[from])}, writers := cleaning)
    case Fail(w) =>
      if w !in s.writers then s
      else if s.writers[w].phase == Creating then s.(writers := s.writers[w := s.writers[w].(phase := Finished)])
      else if s.writers[w].phase in {Writing, Renaming} then s.(writers := s.writers[w := s.writers[w].(phase := Cleaning)])
      else s
    case Unlink(w) =>
      if !InPhase(s, w, Cleaning) then s
      else s.(names := s.names - {Temporary(s.writers[w].temporary)}, writers := s.writers[w := s.writers[w].(phase := Finished)])
    case UnlinkFails(w) =>
      if !InPhase(s, w, Cleaning) then s else s.(writers := s.writers[w := s.writers[w].(phase := Finished)])
    case Die(w) =>
      if w !in s.writers then s else s.(writers := s.writers[w := s.writers[w].(phase := Finished)])
    case BeginRead(r, entry, identity) =>
      if r in s.readers then s else s.(readers := s.readers[r := Reading(entry, identity)])
    case Open(r) =>
      if r !in s.readers || !s.readers[r].Reading? then s
      else
        var name := Published(s.readers[r].entry);
        if name in s.names
        then s.(readers := s.readers[r := Opened(s.readers[r].entry, s.readers[r].identity, s.names[name], [])])
        else Answer(s, r, Missed(s.readers[r].entry, s.readers[r].identity))
    case ReadSome(r, count) =>
      if !Reads(s, r) then s
      else
        var seen := s.readers[r].data;
        var more := Slice(s.files[s.readers[r].inode].content, |seen|, |seen| + count);
        s.(readers := s.readers[r := s.readers[r].(data := seen + more)])
    case EndOfFile(r) =>
      if !Reads(s, r) || |s.readers[r].data| < |s.files[s.readers[r].inode].content| then s
      else Answer(s, r, Taken(hash, s, r))
    case ReadError(r) =>
      if r !in s.readers || s.readers[r].Closed? then s
      else Answer(s, r, Missed(s.readers[r].entry, s.readers[r].identity))
    case Remove(name) => s.(names := s.names - {name})
    case PowerLoss(names, kept) =>
      if !(names.Items <= s.bound) || |kept| != |s.files| then s
      else State(names, s.bound, seq(|s.files|, i requires 0 <= i < |s.files| => CutTo(s.files[i], kept[i])),
                 Dead(s.writers), map r | r in s.readers :: Closed, s.outcomes)
  }

  function WriterFrame(hash: Bytes -> Bytes, writer: Writer): Bytes {
    Frame(hash, writer.identity, writer.payload)
  }

  /** Write the next bytes of the frame to the writer's own file. */
  function Written(hash: Bytes -> Bytes, s: State, w: nat, count: nat): State {
    if !InPhase(s, w, Writing) || |s.files| <= s.writers[w].inode then s
    else
      var writer := s.writers[w];
      var more := Slice(WriterFrame(hash, writer), writer.offset, writer.offset + count);
      var file := s.files[writer.inode];
      s.(files := s.files[writer.inode := file.(content := file.content + more)],
         writers := s.writers[w := writer.(offset := writer.offset + |more|)])
  }

  function Run(hash: Bytes -> Bytes, s: State, events: seq<Event>): State
    decreases |events|
  {
    if events == [] then s else Run(hash, Step(hash, s, events[0]), events[1..])
  }

  // ----- What every run keeps -----

  /** Writers write under digests, payloads whose digest tells when they are cut short. */
  ghost predicate SoundEvent(hash: Bytes -> Bytes, e: Event) {
    e.BeginWrite? ==> |e.identity| == 32 && CutShows(hash, e.payload)
  }

  ghost predicate WritersSound(hash: Bytes -> Bytes, writers: map<nat, Writer>) {
    forall w :: w in writers ==> |writers[w].identity| == 32 && CutShows(hash, writers[w].payload)
  }

  /** A file holds the beginning of what the writer that created it writes. */
  ghost predicate FileOwned(hash: Bytes -> Bytes, s: State, i: nat)
    requires i < |s.files|
  {
    var w := s.files[i].owner;
    w in s.writers && s.writers[w].phase != Creating && s.writers[w].inode == i && s.files[i].content <= WriterFrame(hash, s.writers[w])
  }

  /** A writer at work is at the end of its own file. */
  ghost predicate WriterPlaced(hash: Bytes -> Bytes, s: State, w: nat)
    requires w in s.writers
  {
    var writer := s.writers[w];
    writer.phase in {Writing, Renaming} ==>
      && writer.inode < |s.files| && s.files[writer.inode].owner == w
      && writer.offset <= |WriterFrame(hash, writer)| && s.files[writer.inode].content == WriterFrame(hash, writer)[..writer.offset]
      && (writer.phase == Renaming ==> writer.offset == |WriterFrame(hash, writer)|)
  }

  ghost predicate ReaderPlaced(s: State, r: nat)
    requires r in s.readers
  {
    s.readers[r].Opened? ==> s.readers[r].inode < |s.files| && s.readers[r].data <= s.files[s.readers[r].inode].content
  }

  /** The pairs of names and files are of files that exist; the directory holds some of those pairs. */
  ghost predicate NamesPlaced(s: State) {
    && (forall name :: name in s.names ==> (name, s.names[name]) in s.bound)
    && (forall name, i :: (name, i) in s.bound ==> 0 <= i < |s.files|)
  }

  ghost predicate Placed(hash: Bytes -> Bytes, s: State) {
    && (forall i :: 0 <= i < |s.files| ==> FileOwned(hash, s, i))
    && (forall w :: w in s.writers ==> WriterPlaced(hash, s, w))
    && (forall r :: r in s.readers ==> ReaderPlaced(s, r))
    && NamesPlaced(s)
  }

  /** A payload returned to a reader is what a writer wrote under the reader's identity. */
  ghost predicate Whole(s: State, outcome: Outcome) {
    outcome.Returned? ==>
      && outcome.writer in s.writers && s.writers[outcome.writer].identity == outcome.identity
      && s.writers[outcome.writer].payload == outcome.payload
  }

  ghost predicate AllWhole(s: State) {
    forall k :: 0 <= k < |s.outcomes| ==> Whole(s, s.outcomes[k])
  }

  ghost predicate SameJob(s: State, t: State, w: nat)
    requires w in s.writers
  {
    && w in t.writers && t.writers[w].entry == s.writers[w].entry
    && t.writers[w].identity == s.writers[w].identity && t.writers[w].payload == s.writers[w].payload
  }

  /** No writer changes what it writes, and none disappears. */
  ghost predicate SameJobs(s: State, t: State) {
    forall w :: w in s.writers ==> SameJob(s, t, w)
  }

  lemma WritingKeepsJob(hash: Bytes -> Bytes, s: State, v: nat, count: nat, w: nat)
    requires w in s.writers
    ensures SameJob(s, Step(hash, s, WriteSome(v, count)), w)
  {
    hide WriterFrame, Slice;
  }

  lemma LossKeepsJob(hash: Bytes -> Bytes, s: State, e: Event, w: nat)
    requires e.PowerLoss? && w in s.writers
    ensures SameJob(s, Step(hash, s, e), w)
  {
    hide CutTo;
  }

  lemma WriterKeepsJob(hash: Bytes -> Bytes, s: State, e: Event, w: nat)
    requires (WriterEvent(e) || e.CreateTemporary?) && w in s.writers
    ensures SameJob(s, Step(hash, s, e), w)
  {
    hide WriterFrame, InPhase, Written, Taken, Accept;
  }

  lemma JobStays(hash: Bytes -> Bytes, s: State, e: Event, w: nat)
    requires w in s.writers
    ensures SameJob(s, Step(hash, s, e), w)
  {
    hide Step;
    if e.WriteSome? {
      WritingKeepsJob(hash, s, e.w, e.count, w);
    } else if e.PowerLoss? {
      LossKeepsJob(hash, s, e, w);
    } else if ReaderEvent(e) {
      ReaderStepIs(hash, s, e);
    } else {
      WriterKeepsJob(hash, s, e, w);
    }
  }

  lemma StepKeepsJobs(hash: Bytes -> Bytes, s: State, e: Event)
    ensures SameJobs(s, Step(hash, s, e))
  {
    forall w | w in s.writers
      ensures SameJob(s, Step(hash, s, e), w)
    {
      JobStays(hash, s, e, w);
    }
  }

  lemma PowerLossKeepsPlaced(hash: Bytes -> Bytes, s: State, names: map<Name, nat>, kept: seq<nat>)
    requires Placed(hash, s)
    ensures Placed(hash, Step(hash, s, PowerLoss(names, kept)))
  {
    hide Frame, Accept, Taken, Reads, Written, Slice;
    var t := Step(hash, s, PowerLoss(names, kept));
    if names.Items <= s.bound && |kept| == |s.files| {
      forall i | 0 <= i < |t.files|
        ensures FileOwned(hash, t, i)
      {
        assert FileOwned(hash, s, i);
      }
      forall name | name in t.names
        ensures (name, t.names[name]) in t.bound
      {
        assert (name, names[name]) in names.Items;
      }
    }
  }

  lemma WriteSomeKeepsPlaced(hash: Bytes -> Bytes, s: State, w: nat, count: nat)
    requires Placed(hash, s)
    ensures Placed(hash, Step(hash, s, WriteSome(w, count)))
  {
    hide Frame, Accept, Taken, CutTo, Reads;
    var t := Step(hash, s, WriteSome(w, count));
    if InPhase(s, w, Writing) {
      assert WriterPlaced(hash, s, w);
      var frame := WriterFrame(hash, s.writers[w]);
      assert t.files[s.writers[w].inode].content == frame[..t.writers[w].offset];
      forall i | 0 <= i < |t.files|
        ensures FileOwned(hash, t, i)
      {
        assert FileOwned(hash, s, i);
      }
      forall v | v in t.writers
        ensures WriterPlaced(hash, t, v)
      {
        assert WriterPlaced(hash, s, v);
      }
      forall r | r in t.readers
        ensures ReaderPlaced(t, r)
      {
        assert ReaderPlaced(s, r);
      }
    }
  }

  lemma CreateKeepsPlaced(hash: Bytes -> Bytes, s: State, w: nat, n: nat)
    requires Placed(hash, s)
    ensures Placed(hash, Step(hash, s, CreateTemporary(w, n)))
  {
    var t := Step(hash, s, CreateTemporary(w, n));
    if InPhase(s, w, Creating) && Temporary(n) !in s.names {
      forall i | 0 <= i < |t.files|
        ensures FileOwned(hash, t, i)
      {
        if i < |s.files| {
          assert FileOwned(hash, s, i);
        }
      }
      forall v | v in t.writers
        ensures WriterPlaced(hash, t, v)
      {
        assert WriterPlaced(hash, s, v);
      }
      forall r | r in t.readers
        ensures ReaderPlaced(t, r)
      {
        assert ReaderPlaced(s, r);
      }
    }
  }

  predicate WriterEvent(e: Event) {
    e.BeginWrite? || e.Close? || e.Rename? || e.Fail? || e.Unlink? || e.UnlinkFails? || e.Die? || e.Remove?
  }

  predicate ReaderEvent(e: Event) {
    e.BeginRead? || e.Open? || e.ReadSome? || e.EndOfFile? || e.ReadError?
  }

  /** Moving a writer on, with its file complete if it is to be renamed. */
  lemma AdvanceKeepsPlaced(hash: Bytes -> Bytes, s: State, t: State, w: nat, phase: Phase)
    requires Placed(hash, s) && w in s.writers && phase in {Renaming, Cleaning, Finished}
    requires phase == Renaming ==> s.writers[w].phase == Writing && s.writers[w].offset == |WriterFrame(hash, s.writers[w])|
    requires t.files == s.files && t.readers == s.readers && t.writers == s.writers[w := s.writers[w].(phase := phase)]
    requires NamesPlaced(t)
    ensures Placed(hash, t)
  {
    forall i | 0 <= i < |t.files|
      ensures FileOwned(hash, t, i)
    {
      assert FileOwned(hash, s, i);
    }
    forall v | v in t.writers
      ensures WriterPlaced(hash, t, v)
    {
      assert WriterPlaced(hash, s, v);
    }
    forall r | r in t.readers
      ensures ReaderPlaced(t, r)
    {
      assert ReaderPlaced(s, r);
    }
  }

  lemma BeginKeepsPlaced(hash: Bytes -> Bytes, s: State, e: Event)
    requires Placed(hash, s) && e.BeginWrite?
    ensures Placed(hash, Step(hash, s, e))
  {
    hide Frame, WriterFrame, Accept, Taken, CutTo, Reads, Written, Slice;
    var t := Step(hash, s, e);
    forall i | 0 <= i < |t.files|
      ensures FileOwned(hash, t, i)
    {
      assert FileOwned(hash, s, i);
    }
    forall v | v in t.writers
      ensures WriterPlaced(hash, t, v)
    {
      if v in s.writers {
        assert WriterPlaced(hash, s, v);
      }
    }
    forall r | r in t.readers
      ensures ReaderPlaced(t, r)
    {
      assert ReaderPlaced(s, r);
    }
  }

  lemma RemoveKeepsPlaced(hash: Bytes -> Bytes, s: State, t: State)
    requires Placed(hash, s) && t == s.(names := t.names) && NamesPlaced(t)
    ensures Placed(hash, t)
  {
    forall i | 0 <= i < |t.files|
      ensures FileOwned(hash, t, i)
    {
      assert FileOwned(hash, s, i);
    }
    forall v | v in t.writers
      ensures WriterPlaced(hash, t, v)
    {
      assert WriterPlaced(hash, s, v);
    }
    forall r | r in t.readers
      ensures ReaderPlaced(t, r)
    {
      assert ReaderPlaced(s, r);
    }
  }

  lemma WriterStepNames(hash: Bytes -> Bytes, s: State, e: Event)
    requires NamesPlaced(s) && WriterEvent(e)
    ensures NamesPlaced(Step(hash, s, e))
  {
  }

  lemma WriterKeepsPlaced(hash: Bytes -> Bytes, s: State, e: Event)
    requires Placed(hash, s) && WriterEvent(e)
    ensures Placed(hash, Step(hash, s, e))
  {
    hide FileOwned, WriterPlaced, ReaderPlaced, Accept, Frame, Slice, Taken, CutTo, Reads;
    var t := Step(hash, s, e);
    WriterStepNames(hash, s, e);
    if e.BeginWrite? {
      BeginKeepsPlaced(hash, s, e);
    } else if e.Remove? {
      RemoveKeepsPlaced(hash, s, t);
    } else if t != s {
      AdvanceKeepsPlaced(hash, s, t, e.w, t.writers[e.w].phase);
    }
  }

  lemma ReaderStepIs(hash: Bytes -> Bytes, s: State, e: Event)
    requires ReaderEvent(e)
    ensures var t := Step(hash, s, e); t == s.(readers := t.readers, outcomes := t.outcomes)
  {
  }

  lemma ReadSomePlaced(hash: Bytes -> Bytes, s: State, e: Event, r: nat)
    requires Placed(hash, s) && e.ReadSome? && r in Step(hash, s, e).readers
    ensures ReaderPlaced(Step(hash, s, e), r)
  {
    hide FileOwned, WriterPlaced, NamesPlaced, Accept, Taken, CutTo, Frame, WriterFrame, Written, Dead, InPhase;
    assert ReaderPlaced(s, r);
  }

  /** Short of reading on, a reader stays as it is, begins, closes or opens what its entry's name holds. */
  lemma ReaderMoves(hash: Bytes -> Bytes, s: State, e: Event, r: nat)
    requires ReaderEvent(e) && !e.ReadSome? && r in Step(hash, s, e).readers && Step(hash, s, e).readers[r].Opened?
    ensures var reader := Step(hash, s, e).readers[r];
            || (r in s.readers && reader == s.readers[r])
            || (reader.data == [] && Published(reader.entry) in s.names && reader.inode == s.names[Published(reader.entry)])
  {
    hide Accept, Taken, Reads;
  }

  lemma ReadersPlaced(hash: Bytes -> Bytes, s: State, e: Event, r: nat)
    requires Placed(hash, s) && ReaderEvent(e) && r in Step(hash, s, e).readers
    ensures ReaderPlaced(Step(hash, s, e), r)
  {
    if e.ReadSome? {
      ReadSomePlaced(hash, s, e, r);
    } else if Step(hash, s, e).readers[r].Opened? {
      hide Step;
      ReaderMoves(hash, s, e, r);
      ReaderStepIs(hash, s, e);
      if r in s.readers {
        assert ReaderPlaced(s, r);
      }
    }
  }

  lemma ReaderKeepsPlaced(hash: Bytes -> Bytes, s: State, e: Event)
    requires Placed(hash, s) && ReaderEvent(e)
    ensures Placed(hash, Step(hash, s, e))
  {
    var t := Step(hash, s, e);
    ReaderStepIs(hash, s, e);
    forall i | 0 <= i < |t.files|
      ensures FileOwned(hash, t, i)
    {
      assert FileOwned(hash, s, i);
    }
    forall v | v in t.writers
      ensures WriterPlaced(hash, t, v)
    {
      assert WriterPlaced(hash, s, v);
    }
    forall r | r in t.readers
      ensures ReaderPlaced(t, r)
    {
      ReadersPlaced(hash, s, e, r);
    }
  }

  lemma StepKeepsPlaced(hash: Bytes -> Bytes, s: State, e: Event)
    requires Placed(hash, s)
    ensures Placed(hash, Step(hash, s, e))
  {
    if e.PowerLoss? {
      PowerLossKeepsPlaced(hash, s, e.names, e.kept);
    } else if e.WriteSome? {
      WriteSomeKeepsPlaced(hash, s, e.w, e.count);
    } else if e.CreateTemporary? {
      CreateKeepsPlaced(hash, s, e.w, e.n);
    } else if ReaderEvent(e) {
      ReaderKeepsPlaced(hash, s, e);
    } else {
      WriterKeepsPlaced(hash, s, e);
    }
  }

  lemma StepKeepsSound(hash: Bytes -> Bytes, s: State, e: Event)
    requires WritersSound(hash, s.writers) && SoundEvent(hash, e)
    ensures WritersSound(hash, Step(hash, s, e).writers)
  {
    var t := Step(hash, s, e);
    StepKeepsJobs(hash, s, e);
    forall w | w in t.writers
      ensures |t.writers[w].identity| == 32 && CutShows(hash, t.writers[w].payload)
    {
      if w !in s.writers {
        NewWriter(hash, s, e, w);
      }
    }
  }

  lemma NewWriter(hash: Bytes -> Bytes, s: State, e: Event, w: nat)
    requires w in Step(hash, s, e).writers && w !in s.writers
    ensures e.BeginWrite? && e.w == w && Step(hash, s, e).writers[w] == Writer(e.entry, e.identity, e.payload, Creating, 0, 0, 0)
  {
  }

  /** Only the end of a file gives a payload. */
  lemma NewOutcome(hash: Bytes -> Bytes, s: State, e: Event, k: nat)
    requires |s.outcomes| <= k < |Step(hash, s, e).outcomes| && Step(hash, s, e).outcomes[k].Returned?
    ensures e.EndOfFile? && Reads(s, e.r) && Step(hash, s, e).outcomes[k] == Taken(hash, s, e.r)
  {
  }

  lemma OldOutcome(hash: Bytes -> Bytes, s: State, e: Event)
    ensures s.outcomes <= Step(hash, s, e).outcomes
  {
  }

  /** What is taken from a file was written whole, under the identity asked for, by the file's owner. */
  lemma TakenIsWhole(hash: Bytes -> Bytes, s: State, r: nat)
    requires Digest(hash) && Placed(hash, s) && WritersSound(hash, s.writers) && Reads(s, r) && Taken(hash, s, r).Returned?
    ensures Whole(s, Taken(hash, s, r))
  {
    var reader := s.readers[r];
    assert ReaderPlaced(s, r) && FileOwned(hash, s, reader.inode);
    var writer := s.writers[s.files[reader.inode].owner];
    AcceptCutFrame(hash, writer.identity, writer.payload, reader.identity, reader.data);
  }

  /** What a read is given at the end of a file was written whole under its identity. */
  lemma StepKeepsWhole(hash: Bytes -> Bytes, s: State, e: Event)
    requires Digest(hash) && Placed(hash, s) && WritersSound(hash, s.writers) && AllWhole(s)
    ensures AllWhole(Step(hash, s, e))
  {
    hide Step, Placed, Taken, WritersSound;
    var t := Step(hash, s, e);
    StepKeepsJobs(hash, s, e);
    OldOutcome(hash, s, e);
    forall k | 0 <= k < |t.outcomes|
      ensures Whole(t, t.outcomes[k])
    {
      if k < |s.outcomes| {
        assert t.outcomes[k] == s.outcomes[k] && Whole(s, s.outcomes[k]);
      } else if t.outcomes[k].Returned? {
        NewOutcome(hash, s, e, k);
        TakenIsWhole(hash, s, e.r);
      }
    }
  }

  /** However writers, readers, failures and power losses interleave, a read returns nothing or a complete
      payload written under the identity it asks for. */
  lemma {:induction false} ReadsAreWhole(hash: Bytes -> Bytes, s: State, events: seq<Event>)
    requires Digest(hash) && Placed(hash, s) && WritersSound(hash, s.writers) && AllWhole(s)
    requires forall k :: 0 <= k < |events| ==> SoundEvent(hash, events[k])
    ensures Placed(hash, Run(hash, s, events)) && AllWhole(Run(hash, s, events))
    decreases |events|
  {
    if events != [] {
      StepKeepsPlaced(hash, s, events[0]);
      StepKeepsSound(hash, s, events[0]);
      StepKeepsWhole(hash, s, events[0]);
      ReadsAreWhole(hash, Step(hash, s, events[0]), events[1..]);
    }
  }

  // ----- Runs -----

  lemma {:induction false} RunAppend(hash: Bytes -> Bytes, s: State, first: seq<Event>, second: seq<Event>)
    ensures Run(hash, s, first + second) == Run(hash, Run(hash, s, first), second)
    decreases |first|
  {
    if first == [] {
      assert first + second == second;
    } else {
      assert (first + second)[1..] == first[1..] + second;
      RunAppend(hash, Step(hash, s, first[0]), first[1..], second);
    }
  }

  lemma RunThen(hash: Bytes -> Bytes, s: State, events: seq<Event>, e: Event)
    ensures Run(hash, s, events + [e]) == Step(hash, Run(hash, s, events), e)
  {
    RunAppend(hash, s, events, [e]);
    assert [e][1..] == [];
    assert Run(hash, Run(hash, s, events), [e]) == Run(hash, Step(hash, Run(hash, s, events), e), []);
  }
}
