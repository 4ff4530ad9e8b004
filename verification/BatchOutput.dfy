/** The batch worker: bounded reading and writing, and publishing an execution's output once. */
module BatchOutput {
  import opened Wrappers
  import opened Batches
  import opened Keys

  newtype byte = x: int | 0 <= x < 256

  type Bytes = seq<byte>

  type Digest = nat

  // SHA-256, taken to tell any two contents apart.
  type Hash = Bytes -> Digest

  ghost predicate Injective(hash: Hash) {
    forall a: Bytes, b: Bytes :: hash(a) == hash(b) ==> a == b
  }

  // A number for every contents, by digits from 1 to 256.
  function Numbered(b: Bytes): Digest {
    if b == [] then 0 else 1 + b[0] as nat + 256 * Numbered(b[1..])
  }

  lemma {:induction false} NumbersDiffer(a: Bytes, b: Bytes)
    ensures Numbered(a) == Numbered(b) <==> a == b
  {
    if a != [] && b != [] {
      NumbersDiffer(a[1..], b[1..]);
      assert a == [a[0]] + a[1..] && b == [b[0]] + b[1..];
    }
  }

  // What is asked of a hash can be met.
  lemma HashesExist()
    ensures Injective(Numbered)
  {
    forall a: Bytes, b: Bytes | Numbered(a) == Numbered(b) ensures a == b {
      NumbersDiffer(a, b);
    }
  }

  const CHUNK: nat := 1024 * 1024

  function Min(a: nat, b: nat): nat { if a < b then a else b }

  /******* Bounded files *******/

  class BoundedOutput {
    const limit: nat
    var written: Bytes

    ghost predicate Valid()
      reads this
    {
      |written| <= limit
    }

    constructor (limit: nat)
      ensures Valid() && written == [] && this.limit == limit
    {
      this.limit, written := limit, [];
    }

    /** A write that would exceed the limit is refused before any of it is written. */
    method Write(data: Bytes) returns (ok: bool)
      requires Valid()
      modifies this
      ensures Valid()
      ensures ok <==> |old(written)| + |data| <= limit
      ensures written == if ok then old(written) + data else old(written)
    {
      if |written| + |data| > limit {
        return false;
      }
      written := written + data;
      return true;
    }
  }

  // A stream delivers, when asked for at most n bytes, some of those that are left; none only at its end.
  method Read(body: Bytes, at: nat, n: nat, some: nat) returns (chunk: Bytes)
    requires at <= |body| && n > 0
    ensures at + |chunk| <= |body| && chunk == body[at..at + |chunk|] && |chunk| <= n
    ensures chunk == [] <==> at == |body|
  {
    var k := Min(Min(n, |body| - at), some);
    chunk := if k == 0 && at < |body| then body[at..at + 1] else body[at..at + k];
  }

  /** A download succeeds exactly when the announced length is that of the object and within the limit; it
      never puts more than the limit on disk. `sizes` says how the stream cuts its contents. */
  method Download(body: Bytes, announced: nat, limit: nat, hash: Hash, sizes: nat -> nat)
    returns (out: Result<(nat, Digest)>, file: Bytes)
    ensures out.Ok? <==> announced == |body| <= limit
    ensures out.Err? ==> out.error == InvalidArgument
    ensures out.Ok? ==> file == body && out.value == (|body|, hash(body))
    ensures |file| <= limit
  {
    file := [];
    if announced > limit {
      return Err(InvalidArgument), file;
    }
    var chunk := Read(body, 0, Min(CHUNK, limit + 1), sizes(0));
    while chunk != []
      invariant |file| <= limit && |file| + |chunk| <= |body|
      invariant file == body[..|file|] && chunk == body[|file|..|file| + |chunk|]
      invariant chunk == [] <==> |file| == |body|
      decreases |body| - |file|
    {
      if |file| + |chunk| > limit {
        return Err(InvalidArgument), file;
      }
      file := file + chunk;
      chunk := Read(body, |file|, Min(CHUNK, limit - |file| + 1), sizes(|file|));
    }
    if |file| != announced {
      return Err(InvalidArgument), file;
    }
    out := Ok((|file|, hash(file)));
  }

  /******* Prediction *******/

  // What the format libraries and the model do with one frame of rows; None where they refuse it.
  datatype Worker<!Row> = Worker(
    predict: seq<Row> -> Option<seq<nat>>,
    encode: (seq<Row>, seq<nat>, bool) -> Bytes,
    empty: Bytes,
    footer: Bytes)

  // A prediction for every row of the frame.
  function Predicted<Row>(w: Worker<Row>, frame: seq<Row>): Option<seq<nat>> {
    var values := w.predict(frame);
    if values.Some? && |values.value| == |frame| then values else None
  }

  // The file of some frames, if the model answers for all of them; only the first carries a header.
  function Rendered<Row>(w: Worker<Row>, frames: seq<seq<Row>>): Option<Bytes> {
    if frames == [] then Some([])
    else
      var last := |frames| - 1;
      var earlier, values := Rendered(w, frames[..last]), Predicted(w, frames[last]);
      if earlier.None? || values.None? then
        None
      else Some(earlier.value + w.encode(frames[last], values.value, last == 0))
  }

  function File<Row>(w: Worker<Row>, frames: seq<seq<Row>>): Option<Bytes> {
    match Rendered(w, frames)
    case None => None
    case Some(bytes) => Some((if frames == [] then w.empty else bytes) + w.footer)
  }

  lemma {:induction false} RenderedPrefix<Row>(w: Worker<Row>, frames: seq<seq<Row>>, k: nat)
    requires k <= |frames|
    ensures Rendered(w, frames).Some? ==>
              Rendered(w, frames[..k]).Some? && |Rendered(w, frames[..k]).value| <= |Rendered(w, frames).value|
    ensures |Rows(frames[..k])| <= |Rows(frames)|
    decreases |frames|
  {
    if k < |frames| {
      var last := |frames| - 1;
      RenderedPrefix(w, frames[..last], k);
      assert frames[..last][..k] == frames[..k];
    } else {
      assert frames[..k] == frames;
    }
  }

  // A prediction succeeds when the rows are as many as allowed and registered, and the file fits.
  predicate Predicts<Row>(w: Worker<Row>, frames: seq<seq<Row>>, maxRows: nat, maxBytes: nat, rowCount: Option<nat>) {
    && |Rows(frames)| <= maxRows
    && (rowCount.Some? ==> |Rows(frames)| == rowCount.value)
    && File(w, frames).Some? && |File(w, frames).value| <= maxBytes
  }

  // One frame on: its rows and bytes follow those before, and are no more than those of all frames.
  lemma NextFrame<Row>(w: Worker<Row>, frames: seq<seq<Row>>, k: nat)
    requires k < |frames| && Rendered(w, frames[..k]).Some?
    ensures |Rows(frames[..k + 1])| == |Rows(frames[..k])| + |frames[k]| <= |Rows(frames)|
    ensures var values := Predicted(w, frames[k]);
            var more :=
              if values.None? then None
              else Some(Rendered(w, frames[..k]).value + w.encode(frames[k], values.value, k == 0));
            && Rendered(w, frames[..k + 1]) == more
            && (Rendered(w, frames).Some? ==> more.Some? && |more.value| <= |Rendered(w, frames).value|)
  {
    RowsOneMore(frames, k);
    RenderedPrefix(w, frames, k + 1);
    assert frames[..k + 1][..k] == frames[..k];
  }

  // Writes frame after frame; None at the first row or byte too many, and where the model does not answer.
  method PredictFrames<Row>(w: Worker<Row>, frames: seq<seq<Row>>, maxRows: nat, sink: BoundedOutput)
    returns (out: Option<nat>)
    requires sink.Valid() && sink.written == []
    modifies sink
    ensures sink.Valid()
    ensures out.Some? <==>
              |Rows(frames)| <= maxRows && Rendered(w, frames).Some? && |Rendered(w, frames).value| <= sink.limit
    ensures out.Some? ==> out.value == |Rows(frames)| && Rendered(w, frames) == Some(sink.written)
  {
    var rows := 0;
    assert frames[..|frames|] == frames;
    for k := 0 to |frames|
      invariant sink.Valid() && rows == |Rows(frames[..k])| <= maxRows
      invariant Rendered(w, frames[..k]) == Some(sink.written)
    {
      NextFrame(w, frames, k);
      rows := rows + |frames[k]|;
      if rows > maxRows {
        return None;
      }
      var values := w.predict(frames[k]);
      if values.None? || |values.value| != |frames[k]| {
        return None;
      }
      var ok := sink.Write(w.encode(frames[k], values.value, k == 0));
      if !ok {
        return None;
      }
    }
    return Some(rows);
  }

  /** The output is the whole input with its predictions, or there is none. */
  method PredictFile<Row>(w: Worker<Row>, frames: seq<seq<Row>>, maxRows: nat, maxBytes: nat, rowCount: Option<nat>)
    returns (out: Result<(nat, Bytes)>)
    ensures out.Ok? <==>
              && |Rows(frames)| <= maxRows && (rowCount == None || rowCount == Some(|Rows(frames)|))
              && File(w, frames).Some? && |File(w, frames).value| <= maxBytes
    ensures out.Ok? ==> out.value == (|Rows(frames)|, File(w, frames).value)
    ensures out.Err? ==> out.error == InvalidArgument
  {
    var sink := new BoundedOutput(maxBytes);
    var rows := PredictFrames(w, frames, maxRows, sink);
    if rows.None? {
      return Err(InvalidArgument);
    }
    var ok := true;
    if frames == [] {
      assert [] + w.empty == w.empty;
      ok := sink.Write(w.empty);
    }
    if ok {
      ok := sink.Write(w.footer);
    }
    if !ok || (rowCount.Some? && rows.value != rowCount.value) {
      return Err(InvalidArgument);
    }
    return Ok((rows.value, sink.written));
  }

  // What the model says about every frame, one value a row.
  ghost predicate Answers<Row>(w: Worker<Row>, frames: seq<seq<Row>>, values: seq<seq<nat>>) {
    && |values| == |frames|
    && forall i | 0 <= i < |frames| :: w.predict(frames[i]) == Some(values[i]) && |values[i]| == |frames[i]|
  }

  // The frames as they are written, the first with a header.
  ghost predicate AreParts<Row>(w: Worker<Row>, frames: seq<seq<Row>>, values: seq<seq<nat>>, parts: seq<Bytes>) {
    && |parts| == |frames| == |values|
    && forall i | 0 <= i < |frames| :: parts[i] == w.encode(frames[i], values[i], i == 0)
  }

  lemma {:induction false} RenderedParts<Row>(w: Worker<Row>, frames: seq<seq<Row>>, values: seq<seq<nat>>,
      parts: seq<Bytes>)
    requires Answers(w, frames, values) && AreParts(w, frames, values, parts)
    ensures Rendered(w, frames) == Some(Rows(parts))
  {
    if frames != [] {
      var last := |frames| - 1;
      RenderedParts(w, frames[..last], values[..last], parts[..last]);
    }
  }

  lemma {:induction false} RenderedNeedsAnswers<Row>(w: Worker<Row>, frames: seq<seq<Row>>, i: nat)
    requires i < |frames| && (w.predict(frames[i]).None? || |w.predict(frames[i]).value| != |frames[i]|)
    ensures Rendered(w, frames).None?
  {
    var last := |frames| - 1;
    if i < last {
      RenderedNeedsAnswers(w, frames[..last], i);
    }
  }

  /** Where the model answers for every row, the file is the written frames one after the other, or the empty
      file if there are none, and the footer. Where it does not, there is none. */
  lemma FileIsExact<Row>(w: Worker<Row>, frames: seq<seq<Row>>, values: seq<seq<nat>>, parts: seq<Bytes>, i: nat)
    ensures Answers(w, frames, values) && AreParts(w, frames, values, parts) ==>
              File(w, frames) == Some((if frames == [] then w.empty else Rows(parts)) + w.footer)
    ensures i < |frames| && (w.predict(frames[i]).None? || |w.predict(frames[i]).value| != |frames[i]|) ==>
              File(w, frames).None?
  {
    if Answers(w, frames, values) && AreParts(w, frames, values, parts) {
      RenderedParts(w, frames, values, parts);
    }
    if i < |frames| && (w.predict(frames[i]).None? || |w.predict(frames[i]).value| != |frames[i]|) {
      RenderedNeedsAnswers(w, frames, i);
    }
  }

  // The file of two frames is that of one frame with the rows of both.
  ghost predicate Splits<Row>(w: Worker<Row>, a: seq<Row>, b: seq<Row>, first: bool) {
    var both := Predicted(w, a).Some? && Predicted(w, b).Some?;
    && Predicted(w, a + b) == (if both then Some(Predicted(w, a).value + Predicted(w, b).value) else None)
    && (both ==>
          w.encode(a + b, Predicted(w, a).value + Predicted(w, b).value, first)
          == w.encode(a, Predicted(w, a).value, first) + w.encode(b, Predicted(w, b).value, false))
  }

  // A text format and a model that treat every row by itself.
  ghost predicate RowByRow<Row(!new)>(w: Worker<Row>) {
    w.footer == [] && forall a: seq<Row>, b: seq<Row>, first: bool :: Splits(w, a, b, first)
  }

  /** Then the batch size does not matter: the file is that of all rows in one frame. */
  lemma BatchSizeDoesNotMatter<Row(!new)>(w: Worker<Row>, frames: seq<seq<Row>>)
    requires RowByRow(w) && frames != []
    ensures File(w, frames) == File(w, [Rows(frames)])
  {
    RenderedIsWhole(w, frames);
    RenderedOnce(w, Rows(frames));
  }

  lemma RenderedOnce<Row>(w: Worker<Row>, rows: seq<Row>)
    ensures var values := Predicted(w, rows);
            Rendered(w, [rows]) == if values.Some? then Some(w.encode(rows, values.value, true)) else None
  {
    assert [rows][..0] == [];
    if Predicted(w, rows).Some? {
      var bytes := w.encode(rows, Predicted(w, rows).value, true);
      assert [] + bytes == bytes;
    }
  }

  lemma {:induction false} RenderedIsWhole<Row(!new)>(w: Worker<Row>, frames: seq<seq<Row>>)
    requires RowByRow(w) && frames != []
    ensures var values := Predicted(w, Rows(frames));
            Rendered(w, frames) == if values.Some? then Some(w.encode(Rows(frames), values.value, true)) else None
  {
    var last := |frames| - 1;
    if last == 0 {
      assert frames == [frames[0]] && frames[..0] == [];
      assert Rows(frames) == frames[0];
      RenderedOnce(w, frames[0]);
    } else {
      RenderedIsWhole(w, frames[..last]);
      assert Splits(w, Rows(frames[..last]), frames[last], true);
    }
  }

  /******* Publication *******/

  // The metadata stored with an object, and the version tag the store gives it.
  datatype Metadata = Metadata(execution: string, sha256: Digest, rows: nat)

  datatype Object = Object(bytes: Bytes, metadata: Metadata, tag: nat)

  // What a run knows of its output after predicting, and how far its publication has come.
  datatype Phase =
    | Putting
    | Refused
    | Headed(tag: nat)
    | Done
    | Failed

  datatype Attempt = Attempt(bytes: Bytes, rows: nat, phase: Phase)

  // The object at the execution's key, the attempts at publishing it, and how often it was written.
  datatype Store = Store(stored: Option<Object>, attempts: seq<Attempt>, writes: nat)

  function MetadataOf(hash: Hash, execution: string, a: Attempt): Metadata {
    Metadata(execution, hash(a.bytes), a.rows)
  }

  // The object fetched is the one the attempt would have written.
  predicate IsOurs(hash: Hash, execution: string, a: Attempt, o: Object) {
    o.metadata == MetadataOf(hash, execution, a) && |o.bytes| == |a.bytes| && hash(o.bytes) == hash(a.bytes)
  }

  // A conditional put: only where there is nothing yet.
  function Put(hash: Hash, execution: string, s: Store, i: nat): Store
    requires i < |s.attempts|
  {
    var a := s.attempts[i];
    if s.stored.Some? then s.(attempts := s.attempts[i := a.(phase := Refused)])
    else
      var o := Object(a.bytes, MetadataOf(hash, execution, a), s.writes);
      Store(Some(o), s.attempts[i := a.(phase := Done)], s.writes + 1)
  }

  function Head(hash: Hash, execution: string, s: Store, i: nat): Store
    requires i < |s.attempts|
  {
    var a := s.attempts[i];
    var next :=
      if s.stored.None? || s.stored.value.metadata != MetadataOf(hash, execution, a)
        || |s.stored.value.bytes| != |a.bytes|
      then Failed
      else Headed(s.stored.value.tag);
    s.(attempts := s.attempts[i := a.(phase := next)])
  }

  // Only the bytes fetched are trusted; the tag guards against a change since the head.
  function Get(hash: Hash, execution: string, s: Store, i: nat): Store
    requires i < |s.attempts| && s.attempts[i].phase.Headed?
  {
    var a := s.attempts[i];
    var next :=
      if s.stored.None? || s.stored.value.tag != a.phase.tag || !IsOurs(hash, execution, a, s.stored.value) then
        Failed
      else Done;
    s.(attempts := s.attempts[i := a.(phase := next)])
  }

  datatype Step =
    | Started(bytes: Bytes, rows: nat) // another attempt: a first run or a retry
    | PutSent(i: nat)
    | HeadSent(i: nat)
    | GetSent(i: nat)
    | Crashed(i: nat)

  function Apply(hash: Hash, execution: string, s: Store, step: Step): Store {
    match step
    case Started(bytes, rows) => s.(attempts := s.attempts + [Attempt(bytes, rows, Putting)])
    case PutSent(i) => if i < |s.attempts| && s.attempts[i].phase == Putting then Put(hash, execution, s, i) else s
    case HeadSent(i) => if i < |s.attempts| && s.attempts[i].phase == Refused then Head(hash, execution, s, i) else s
    case GetSent(i) => if i < |s.attempts| && s.attempts[i].phase.Headed? then Get(hash, execution, s, i) else s
    case Crashed(i) => if i < |s.attempts| then s.(attempts := s.attempts[i := s.attempts[i].(phase := Failed)]) else s
  }

  function After(hash: Hash, execution: string, s: Store, steps: seq<Step>): Store
    decreases |steps|
  {
    if steps == [] then s else After(hash, execution, Apply(hash, execution, s, steps[0]), steps[1..])
  }

  const NOTHING := Store(None, [], 0)

  // Written at most once, with the metadata of its contents; who is done has what is stored.
  ghost predicate Sound(hash: Hash, execution: string, s: Store) {
    && s.writes == (if s.stored.Some? then 1 else 0)
    && (s.stored.Some? ==>
         s.stored.value.metadata.sha256 == hash(s.stored.value.bytes) && s.stored.value.metadata.execution == execution)
    && (forall i | 0 <= i < |s.attempts| && s.attempts[i].phase == Done ::
          s.stored.Some? && IsOurs(hash, execution, s.attempts[i], s.stored.value))
  }

  lemma StepKeeps(hash: Hash, execution: string, s: Store, step: Step)
    requires Sound(hash, execution, s)
    ensures var after := Apply(hash, execution, s, step);
            Sound(hash, execution, after) && (s.stored.Some? ==> after.stored == s.stored)
  {
  }

  /** However retries of one execution interleave and crash, the object is written at most once and never
      changed. */
  lemma {:induction false} WrittenAtMostOnce(hash: Hash, execution: string, s: Store, steps: seq<Step>)
    requires Sound(hash, execution, s)
    ensures var after := After(hash, execution, s, steps);
            && Sound(hash, execution, after) && after.writes <= 1
            && (s.stored.Some? ==> after.stored == s.stored)
    decreases |steps|
  {
    if steps != [] {
      StepKeeps(hash, execution, s, steps[0]);
      WrittenAtMostOnce(hash, execution, Apply(hash, execution, s, steps[0]), steps[1..]);
    }
  }

  /** Every attempt that succeeds reports the checksum and rows of what is stored, so they all report the
      same; and their own output is, byte for byte, what is stored. */
  lemma SuccessesAgree(hash: Hash, execution: string, steps: seq<Step>, i: nat, j: nat)
    requires Injective(hash)
    requires var s := After(hash, execution, NOTHING, steps);
             i < |s.attempts| && j < |s.attempts| && s.attempts[i].phase == Done && s.attempts[j].phase == Done
    ensures var s := After(hash, execution, NOTHING, steps);
            && s.stored.Some? && s.attempts[i].bytes == s.stored.value.bytes
            && s.attempts[i].rows == s.stored.value.metadata.rows
            && s.attempts[i] == s.attempts[j]
  {
    WrittenAtMostOnce(hash, execution, NOTHING, steps);
  }

  // One attempt, from its start to its end, with nothing in between.
  function WholeAttempt(hash: Hash, execution: string, s: Store, bytes: Bytes, rows: nat): Store {
    var i := |s.attempts|;
    var put := Apply(hash, execution, Apply(hash, execution, s, Started(bytes, rows)), PutSent(i));
    Apply(hash, execution, Apply(hash, execution, put, HeadSent(i)), GetSent(i))
  }

  /** An attempt left alone succeeds exactly when nothing is stored yet, or what it would have stored is. */
  lemma AttemptSucceeds(hash: Hash, execution: string, s: Store, bytes: Bytes, rows: nat)
    requires Sound(hash, execution, s) && Injective(hash)
    ensures var after := WholeAttempt(hash, execution, s, bytes, rows);
            && |after.attempts| == |s.attempts| + 1
            && (after.attempts[|s.attempts|].phase == Done <==>
                  s.stored.None? || (s.stored.value.bytes == bytes && s.stored.value.metadata.rows == rows))
            && (s.stored.Some? ==> after.stored == s.stored)
  {
  }

  /** The last check reads the object through, and passes exactly when metadata, length and contents are
      those expected, however the stream cuts them. */
  method VerifyOutput(hash: Hash, o: Object, announced: nat, expected: Metadata, size: nat, sizes: nat -> nat)
    returns (ok: bool)
    ensures ok <==> o.metadata == expected && announced == size == |o.bytes| && hash(o.bytes) == expected.sha256
  {
    if o.metadata != expected || announced != size {
      return false;
    }
    var seen: Bytes := [];
    var chunk := Read(o.bytes, 0, Min(CHUNK, size + 1), sizes(0));
    while chunk != []
      invariant |seen| <= size && |seen| + |chunk| <= |o.bytes|
      invariant seen == o.bytes[..|seen|] && chunk == o.bytes[|seen|..|seen| + |chunk|]
      invariant chunk == [] <==> |seen| == |o.bytes|
      decreases |o.bytes| - |seen|
    {
      if |seen| + |chunk| > size {
        return false;
      }
      seen := seen + chunk;
      chunk := Read(o.bytes, |seen|, Min(CHUNK, size - |seen| + 1), sizes(|seen|));
    }
    assert seen == o.bytes;
    return |seen| == size && hash(seen) == expected.sha256;
  }

  /******* What a run reads *******/

  // An object as the store delivers it, with the length it announces.
  datatype Delivery = Delivery(body: Bytes, announced: nat)

  // A file of the model package, as pinned when the job was created.
  datatype Entry = Entry(size: nat, sha256: Digest)

  predicate Arrives(d: Delivery, limit: nat) {
    d.announced == |d.body| <= limit
  }

  // The file delivered is the one pinned.
  predicate IsPinned(hash: Hash, e: Entry, d: Delivery) {
    d.announced == |d.body| == e.size && hash(d.body) == e.sha256
  }

  /** The model is handed on exactly when every file of the package is the one pinned. */
  method FetchModel(hash: Hash, manifest: seq<Entry>, files: seq<Delivery>, sizes: nat -> nat) returns (ok: bool)
    requires |files| == |manifest|
    ensures ok <==> forall i | 0 <= i < |manifest| :: IsPinned(hash, manifest[i], files[i])
  {
    for i := 0 to |manifest|
      invariant forall k | 0 <= k < i :: IsPinned(hash, manifest[k], files[k])
    {
      var out, _ := Download(files[i].body, files[i].announced, manifest[i].size, hash, sizes);
      if out.Err? || out.value.0 != manifest[i].size || out.value.1 != manifest[i].sha256 {
        assert !IsPinned(hash, manifest[i], files[i]);
        return false;
      }
    }
    return true;
  }

  // `columns` are those of the input; the output has one more. `packed` says that the input is Parquet.
  datatype Spec = Spec(
    name: string, prefix: string, suffix: string, columns: nat, packed: bool, checksum: Option<Digest>,
    manifest: seq<Entry>, maxRows: nat, maxBytes: nat, rowCount: Option<nat>)

  // What a run finds: its input and model, what the libraries make of them, and how long they say the input
  // is unpacked; None where they refuse it.
  datatype World<!Row> = World(
    source: Delivery,
    files: seq<Delivery>,
    load: seq<Delivery> -> Option<Worker<Row>>,
    read: Bytes -> Option<seq<seq<Row>>>,
    unpacked: Bytes -> nat)

  // The input and the model are those of the job.
  predicate Fetches<Row>(s: Spec, hash: Hash, x: World<Row>)
    requires |x.files| == |s.manifest|
  {
    && Arrives(x.source, s.maxBytes)
    && (s.checksum.Some? ==> hash(x.source.body) == s.checksum.value)
    && forall i | 0 <= i < |s.manifest| :: IsPinned(hash, s.manifest[i], x.files[i])
  }

  // The rows and the file of the prediction, if there is one: everything is fetched, can be read and loaded,
  // and is predicted within the limits.
  function Output<Row>(s: Spec, hash: Hash, x: World<Row>): Option<(nat, Bytes)>
    requires |x.files| == |s.manifest|
  {
    var worker, frames := x.load(x.files), x.read(x.source.body);
    if !Fetches(s, hash, x) || worker.None? || frames.None?
      || (s.packed && x.unpacked(x.source.body) > s.maxBytes)
    then None
    else if !Predicts(worker.value, frames.value, s.maxRows, s.maxBytes, s.rowCount) then None
    else Some((|Rows(frames.value)|, File(worker.value, frames.value).value))
  }

  /** There is an output exactly if the input arrives whole and within the limit, with the checksum pinned, and
      every file of the model as pinned; both are read and loaded, a Parquet input is within the limit unpacked;
      and the rows and the file are within theirs, with as many rows as registered. */
  lemma OutputIsExact<Row>(s: Spec, hash: Hash, x: World<Row>, w: Worker<Row>, frames: seq<seq<Row>>)
    requires |x.files| == |s.manifest|
    requires x.load(x.files) == Some(w) && x.read(x.source.body) == Some(frames)
    ensures Output(s, hash, x).Some? <==>
              && x.source.announced == |x.source.body| && |x.source.body| <= s.maxBytes
              && (s.checksum == None || s.checksum == Some(hash(x.source.body)))
              && (forall i | 0 <= i < |s.manifest| ::
                    && x.files[i].announced == |x.files[i].body| && |x.files[i].body| == s.manifest[i].size
                    && hash(x.files[i].body) == s.manifest[i].sha256)
              && (s.packed ==> x.unpacked(x.source.body) <= s.maxBytes)
              && |Rows(frames)| <= s.maxRows && (s.rowCount == None || s.rowCount == Some(|Rows(frames)|))
              && File(w, frames).Some? && |File(w, frames).value| <= s.maxBytes
    ensures Output(s, hash, x).Some? ==> Output(s, hash, x).value == (|Rows(frames)|, File(w, frames).value)
  {
    forall i | 0 <= i < |s.manifest|
      ensures IsPinned(hash, s.manifest[i], x.files[i]) <==>
                && x.files[i].announced == |x.files[i].body| && |x.files[i].body| == s.manifest[i].size
                && hash(x.files[i].body) == s.manifest[i].sha256
    {
    }
  }

  // From the download of the input to the file on disk.
  method Predict<Row>(s: Spec, hash: Hash, x: World<Row>, sizes: nat -> nat) returns (out: Result<(nat, Bytes)>)
    requires |x.files| == |s.manifest|
    ensures out.Ok? <==> Output(s, hash, x).Some?
    ensures out.Ok? ==> out.value == Output(s, hash, x).value
    ensures out.Err? ==> out.error == InvalidArgument
  {
    var input, source := Download(x.source.body, x.source.announced, s.maxBytes, hash, sizes);
    if input.Err? || (s.checksum.Some? && input.value.1 != s.checksum.value) {
      return Err(InvalidArgument);
    }
    var pinned := FetchModel(hash, s.manifest, x.files, sizes);
    if !pinned {
      return Err(InvalidArgument);
    }
    var worker := x.load(x.files);
    if worker.None? || (s.packed && x.unpacked(source) > s.maxBytes) {
      return Err(InvalidArgument);
    }
    var frames := x.read(source);
    if frames.None? {
      return Err(InvalidArgument);
    }
    out := PredictFile(worker.value, frames.value, s.maxRows, s.maxBytes, s.rowCount);
    if out.Err? {
      return Err(InvalidArgument);
    }
  }

  /******* From the worker to the catalog *******/

  datatype Outcome = Outcome(execution: string, key: string, checksum: Digest, rows: nat, columns: nat)

  const MAX_COLUMNS: nat := 512
  const MAX_ROWS: nat := 100000000
  const MAX_BYTES: nat := 2147483648
  const MAX_MODEL_BYTES: nat := 1073741824
  const MAX_FILES: nat := 1000

  function TotalSize(manifest: seq<Entry>): nat {
    if manifest == [] then 0 else TotalSize(manifest[..|manifest| - 1]) + manifest[|manifest| - 1].size
  }

  // What creating the job and its connection established.
  predicate Created(s: Spec) {
    && IsPrefix(s.prefix) && Starts(s.name) && Plain(s.name)
    && s.suffix in {"csv", "parquet"} && 1 <= s.columns <= MAX_COLUMNS
    && 1 <= s.maxRows <= MAX_ROWS && 1 <= s.maxBytes <= MAX_BYTES
    && 1 <= |s.manifest| <= MAX_FILES && TotalSize(s.manifest) <= MAX_MODEL_BYTES
  }

  // The outcome is that of the immutable execution, and can be registered as a dataset.
  predicate Publishes(s: Spec, execution: string, o: Outcome) {
    && o.execution == execution
    && o.key == OutputKey(s.prefix, s.name, execution, s.suffix)
    && o.columns == s.columns + 1
    && o.rows <= s.maxRows
    && AddressFits(s.prefix, o.key)
    && o.columns <= MAX_COLUMNS
  }

  // What a run reports of its attempt.
  function Report(s: Spec, hash: Hash, execution: string, a: Attempt): Outcome {
    Outcome(execution, OutputKey(s.prefix, s.name, execution, s.suffix), hash(a.bytes), a.rows, s.columns + 1)
  }

  // What a run reports and what is stored after it, by what was at its key before.
  function Ran<Row>(s: Spec, hash: Hash, execution: string, x: World<Row>,
      before: Option<Object>): Result<(Outcome, Object)>
    requires |x.files| == |s.manifest|
  {
    match Output(s, hash, x)
    case None => Err(InvalidArgument)
    case Some((rows, bytes)) =>
      var a := Attempt(bytes, rows, Putting);
      match before
      case None => Ok((Report(s, hash, execution, a), Object(bytes, MetadataOf(hash, execution, a), 0)))
      case Some(o) => if IsOurs(hash, execution, a, o) then Ok((Report(s, hash, execution, a), o)) else Err(Conflict)
  }

  /** A run that nothing disturbs, from its first download, with whatever an earlier attempt may have left at
      its key. What is stored is what it reports. Its outcome is accepted exactly when the connection's prefix
      makes a plain address and the input leaves room for one more column. */
  method Run<Row>(s: Spec, hash: Hash, execution: string, x: World<Row>, before: Option<Object>, sizes: nat -> nat)
    returns (out: Result<(Outcome, Object)>)
    requires Created(s) && Plain(execution) && |x.files| == |s.manifest|
    ensures out == Ran(s, hash, execution, x, before)
    ensures out.Ok? ==>
              var (reported, stored) := out.value;
              && Output(s, hash, x).Some? && reported.rows == stored.metadata.rows == Output(s, hash, x).value.0
              && reported.checksum == hash(stored.bytes) == hash(Output(s, hash, x).value.1)
              && |stored.bytes| == |Output(s, hash, x).value.1| <= s.maxBytes
              && (Publishes(s, execution, reported) <==> Plain(s.prefix) && s.columns < 512)
  {
    var predicted := Predict(s, hash, x, sizes);
    if predicted.Err? {
      return Err(InvalidArgument);
    }
    var (rows, bytes) := predicted.value;
    var a := Attempt(bytes, rows, Putting);
    var store := Put(hash, execution, Store(before, [a], if before.None? then 0 else 1), 0);
    if store.attempts[0].phase == Refused {
      store := Head(hash, execution, store, 0);
      if store.attempts[0].phase == Failed {
        return Err(Conflict);
      }
      var expected := MetadataOf(hash, execution, a);
      var same := VerifyOutput(hash, before.value, |before.value.bytes|, expected, |bytes|, sizes);
      if !same {
        return Err(Conflict);
      }
    }
    ReportIsAccepted(s, hash, execution, a);
    return Ok((Report(s, hash, execution, a), store.stored.value));
  }

  lemma SuffixIsPlain(suffix: string)
    requires suffix in {"csv", "parquet"}
    ensures Plain(suffix) && suffix != ""
  {
  }

  lemma ReportIsAccepted(s: Spec, hash: Hash, execution: string, a: Attempt)
    requires Created(s) && Plain(execution)
    ensures Publishes(s, execution, Report(s, hash, execution, a)) <==>
              Plain(s.prefix) && s.columns < 512 && a.rows <= s.maxRows
  {
    SuffixIsPlain(s.suffix);
    OutputAddressFits(s.prefix, s.name, execution, s.suffix);
  }

  /** An outcome is accepted exactly if it is of this execution, at its own key, with one column more than the
      input and no more rows than allowed, where the prefix makes a plain address and there is room for the
      column. */
  lemma PublishedExactly(s: Spec, execution: string, o: Outcome)
    requires Created(s) && Plain(execution)
    ensures Publishes(s, execution, o) <==>
              && o.execution == execution && o.key == OutputKey(s.prefix, s.name, execution, s.suffix)
              && o.columns == s.columns + 1 && o.rows <= s.maxRows
              && Plain(s.prefix) && s.columns < 512
  {
    SuffixIsPlain(s.suffix);
    OutputAddressFits(s.prefix, s.name, execution, s.suffix);
  }

  /** The result of a run may get lost: a run again with the same output stores nothing and reports the same,
      so it is accepted exactly if the lost one was. A run with another output reports nothing. */
  lemma ReplayReportsTheSame<Row>(s: Spec, hash: Hash, execution: string, x: World<Row>, again: World<Row>,
      before: Option<Object>)
    requires Injective(hash) && |x.files| == |again.files| == |s.manifest|
    requires Ran(s, hash, execution, x, before).Ok?
    ensures var first := Ran(s, hash, execution, x, before);
            var second := Ran(s, hash, execution, again, Some(first.value.1));
            && (second.Ok? <==> Output(s, hash, again) == Output(s, hash, x))
            && (second.Ok? ==> second == first)
  {
  }

  /** However attempts interleave and crash, whichever of them succeed, in whatever order, what they report
      is accepted exactly under the condition on the job, the connection and the rows. */
  lemma EverySuccessIsAccepted(s: Spec, hash: Hash, execution: string, steps: seq<Step>, i: nat)
    requires Created(s) && Plain(execution)
    requires var store := After(hash, execution, NOTHING, steps);
             i < |store.attempts| && store.attempts[i].phase == Done
    ensures var store := After(hash, execution, NOTHING, steps);
            var reported := Report(s, hash, execution, store.attempts[i]);
            && store.stored.Some? && reported.checksum == hash(store.stored.value.bytes)
            && reported.rows == store.stored.value.metadata.rows
            && (Publishes(s, execution, reported) <==>
                  Plain(s.prefix) && s.columns < 512 && store.stored.value.metadata.rows <= s.maxRows)
  {
    WrittenAtMostOnce(hash, execution, NOTHING, steps);
    ReportIsAccepted(s, hash, execution, After(hash, execution, NOTHING, steps).attempts[i]);
  }

  // A job on a CSV input, with a model of one file and the limits the platform proposes.
  function Job(hash: Hash, model: Bytes, prefix: string, columns: nat): Spec {
    Spec("scores", prefix, "csv", columns, false, None, [Entry(|model|, hash(model))], 10000000, 1073741824, None)
  }

  // An input without rows, and a model that answers whatever it is asked; the header is all there is to write.
  function NoRows(model: Bytes, source: Bytes, header: Bytes): World<nat> {
    var worker := Worker(rows => Some(rows), (rows, values, first) => header, header, []);
    World(Delivery(source, |source|), [Delivery(model, |model|)], files => Some(worker), bytes => Some([]), bytes => 0)
  }

  lemma JobIsCreated(hash: Hash, model: Bytes, prefix: string, columns: nat)
    requires prefix in {"a?b", ""} && 1 <= columns <= MAX_COLUMNS && |model| <= MAX_MODEL_BYTES
    ensures Created(Job(hash, model, prefix, columns)) && (prefix == "a?b" ==> !Plain(prefix))
  {
    assert "a?b"[1] == '?';
    assert [Entry(|model|, hash(model))][..0] == [];
    assert TotalSize([Entry(|model|, hash(model))]) == |model|;
  }

  lemma NoRowsAreWritten(hash: Hash, model: Bytes, source: Bytes, header: Bytes, prefix: string, columns: nat)
    requires |source| <= 1073741824 && |header| <= 1073741824
    ensures Output(Job(hash, model, prefix, columns), hash, NoRows(model, source, header)) == Some((0, header))
  {
    var x := NoRows(model, source, header);
    var worker := x.load(x.files).value;
    assert Rows<nat>([]) == [];
    assert File(worker, []) == Some(header + []);
    assert header + [] == header;
  }

  /** Two jobs that can be created, one whose output connection has the prefix a?b and one whose input has as
      many columns as a dataset may have: whatever their header is, for an input without rows it is stored and
      reported, and then refused. */
  lemma StoredAndRefused(hash: Hash, model: Bytes, source: Bytes, header: Bytes, s: Spec)
    requires |model| <= MAX_MODEL_BYTES && 0 < |source| <= 1073741824 && 0 < |header| <= 1073741824
    requires s in {Job(hash, model, "a?b", 1), Job(hash, model, "", MAX_COLUMNS)}
    ensures Created(s)
    ensures var out := Ran(s, hash, "run/main", NoRows(model, source, header), None);
            out.Ok? && out.value.1.bytes == header && !Publishes(s, "run/main", out.value.0)
  {
    JobIsCreated(hash, model, s.prefix, s.columns);
    NoRowsAreWritten(hash, model, source, header, s.prefix, s.columns);
    ReportIsAccepted(s, hash, "run/main", Attempt(header, 0, Putting));
  }
}
