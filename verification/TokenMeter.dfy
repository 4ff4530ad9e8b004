/** Reading the token usage a reply reports while it streams past, without holding the reply. */
module TokenMeter {
  import opened Wrappers

  newtype byte = x: int | 0 <= x < 256

  type Bytes = seq<byte>

  const MAX_METERED_BYTES: nat := 8 * 1024 * 1024
  const NEWLINE: byte := 10
  const DATA: Bytes := [100, 97, 116, 97, 58] // data:
  const USAGE: Bytes := [34, 117, 115, 97, 103, 101, 34] // "usage"

  /******* Lines *******/

  function Index(s: Bytes): (i: nat)
    requires NEWLINE in s
    ensures i < |s| && s[i] == NEWLINE && NEWLINE !in s[..i]
  {
    if s[0] == NEWLINE then 0
    else
      assert s == [s[0]] + s[1..];
      var i := 1 + Index(s[1..]);
      assert s[..i] == [s[0]] + s[1..][..i - 1];
      i
  }

  // What lies between the newlines; the last piece is the unfinished line.
  function Split(s: Bytes): (pieces: seq<Bytes>)
    ensures pieces != []
    decreases |s|
  {
    if NEWLINE in s then [s[..Index(s)]] + Split(s[Index(s) + 1..]) else [s]
  }

  function Unfinished(s: Bytes): Bytes {
    Split(s)[|Split(s)| - 1]
  }

  function Finished(s: Bytes): seq<Bytes> {
    Split(s)[..|Split(s)| - 1]
  }

  lemma IndexIs(s: Bytes, i: nat)
    requires i < |s| && s[i] == NEWLINE && NEWLINE !in s[..i]
    ensures NEWLINE in s && Index(s) == i
  {
    var j := Index(s);
    assert forall k | 0 <= k < i :: s[..i][k] == s[k];
    assert forall k | 0 <= k < j :: s[..j][k] == s[k];
  }

  lemma FirstPiece(a: Bytes, b: Bytes)
    requires NEWLINE in a
    ensures NEWLINE in a + b && Index(a + b) == Index(a)
  {
    var i := Index(a);
    assert (a + b)[..i] == a[..i];
    IndexIs(a + b, i);
  }

  lemma OneInFront(first: Bytes, pieces: seq<Bytes>, all: seq<Bytes>)
    requires pieces != [] && all == [first] + pieces
    ensures all[..|all| - 1] == [first] + pieces[..|pieces| - 1] && all[|all| - 1] == pieces[|pieces| - 1]
  {
  }

  lemma SplitFirst(s: Bytes)
    requires NEWLINE in s
    ensures var (first, rest) := (s[..Index(s)], s[Index(s) + 1..]);
            && Split(s) == [first] + Split(rest)
            && Finished(s) == [first] + Finished(rest) && Unfinished(s) == Unfinished(rest)
  {
    OneInFront(s[..Index(s)], Split(s[Index(s) + 1..]), Split(s));
  }

  lemma Regroup(first: Bytes, lines: seq<Bytes>, more: seq<Bytes>)
    ensures [first] + (lines + more) == ([first] + lines) + more
  {
  }

  /** Splitting what is left over together with what comes next continues the split of the whole. */
  lemma {:induction false} SplitContinues(a: Bytes, b: Bytes)
    ensures Split(a + b) == Finished(a) + Split(Unfinished(a) + b)
    decreases |a|
  {
    if NEWLINE in a {
      var i := Index(a);
      var rest := a[i + 1..];
      FirstPiece(a, b);
      assert (a + b)[i + 1..] == rest + b && (a + b)[..i] == a[..i];
      SplitFirst(a + b);
      SplitFirst(a);
      SplitContinues(rest, b);
      Regroup(a[..i], Finished(rest), Split(Unfinished(rest) + b));
    } else {
      assert Finished(a) == [] && Unfinished(a) == a;
    }
  }

  lemma UnfinishedContinues(a: Bytes, b: Bytes)
    ensures Finished(a + b) == Finished(a) + Finished(Unfinished(a) + b)
    ensures Unfinished(a + b) == Unfinished(Unfinished(a) + b)
  {
    SplitContinues(a, b);
  }

  lemma {:induction false} PiecesAreShort(s: Bytes, i: nat)
    requires i < |Split(s)|
    ensures |Split(s)[i]| + (if i < |Split(s)| - 1 then 1 else 0) <= |s|
    decreases |s|
  {
    if NEWLINE in s && i > 0 {
      PiecesAreShort(s[Index(s) + 1..], i - 1);
    }
  }

  /******* Usage *******/

  function Join(chunks: seq<Bytes>): Bytes {
    if chunks == [] then [] else Join(chunks[..|chunks| - 1]) + chunks[|chunks| - 1]
  }

  lemma JoinOneMore(chunks: seq<Bytes>, chunk: Bytes)
    ensures Join(chunks + [chunk]) == Join(chunks) + chunk
  {
    assert (chunks + [chunk])[..|chunks|] == chunks;
  }

  predicate IsSpace(b: byte) {
    b == 32 || 9 <= b <= 13
  }

  function StripLeft(s: Bytes): Bytes {
    if s != [] && IsSpace(s[0]) then StripLeft(s[1..]) else s
  }

  function StripRight(s: Bytes): Bytes {
    if s != [] && IsSpace(s[|s| - 1]) then StripRight(s[..|s| - 1]) else s
  }

  function Strip(s: Bytes): Bytes {
    StripRight(StripLeft(s))
  }

  predicate Contains(s: Bytes, part: Bytes) {
    exists i | 0 <= i <= |s| :: part <= s[i..]
  }

  // The two counts inside the "usage" object of a JSON text; None where one is not an integer.
  datatype Counts = Counts(prompt: Option<int>, completion: Option<int>)

  // A JSON text without such an object, or no JSON at all, has no counts.
  type Json = Bytes -> Option<Counts>

  datatype Usage = Usage(prompt: nat, completion: nat, reported: bool)

  const NOTHING := Usage(0, 0, false)

  // The usage a JSON text reports, if it reports one.
  function Reports(json: Json, raw: Bytes): Option<Usage> {
    match json(raw)
    case None => None
    case Some(counts) =>
      if counts.prompt.Some? && counts.completion.Some? && counts.prompt.value >= 0 && counts.completion.value >= 0
      then Some(Usage(counts.prompt.value, counts.completion.value, true)) else None
  }

  // The usage a line of an event stream reports, if it reports one.
  function LineReports(json: Json, line: Bytes): Option<Usage> {
    var text := Strip(line);
    if DATA <= text && Contains(text, USAGE) then Reports(json, Strip(text[|DATA|..])) else None
  }

  function Or(found: Option<Usage>, otherwise: Usage): Usage {
    if found.Some? then found.value else otherwise
  }

  // Every report replaces the one before.
  function Scan(json: Json, lines: seq<Bytes>): Usage {
    if lines == [] then NOTHING else Or(LineReports(json, lines[|lines| - 1]), Scan(json, lines[..|lines| - 1]))
  }

  lemma ScanOneMore(json: Json, lines: seq<Bytes>, line: Bytes)
    ensures Scan(json, lines + [line]) == Or(LineReports(json, line), Scan(json, lines))
  {
    assert (lines + [line])[..|lines|] == lines;
  }

  lemma {:induction false} WithoutReports(json: Json, lines: seq<Bytes>)
    requires forall i | 0 <= i < |lines| :: LineReports(json, lines[i]).None?
    ensures Scan(json, lines) == NOTHING
  {
    if lines != [] {
      WithoutReports(json, lines[..|lines| - 1]);
    }
  }

  /** What a scan ends with is the report of the last line that has one. */
  lemma {:induction false} LastReportWins(json: Json, lines: seq<Bytes>, k: nat)
    requires k < |lines| && LineReports(json, lines[k]).Some?
    requires forall i | k < i < |lines| :: LineReports(json, lines[i]).None?
    ensures Scan(json, lines) == LineReports(json, lines[k]).value
  {
    if k < |lines| - 1 {
      LastReportWins(json, lines[..|lines| - 1], k);
    }
  }

  /******* The meter *******/

  // Whether the chunk that comes next is one too many.
  predicate TooMuch(streamed: bool, chunks: seq<Bytes>, next: Bytes) {
    if streamed then |Unfinished(Join(chunks))| + |next| > MAX_METERED_BYTES
    else |Join(chunks)| + |next| > MAX_METERED_BYTES
  }

  // How many chunks were taken in before one was too much.
  function Accepted(streamed: bool, chunks: seq<Bytes>): (n: nat)
    ensures n <= |chunks|
    ensures forall i | 0 <= i < n :: !TooMuch(streamed, chunks[..i], chunks[i])
    ensures n < |chunks| ==> TooMuch(streamed, chunks[..n], chunks[n])
  {
    if chunks == [] then 0
    else
      var last := |chunks| - 1;
      var n := Accepted(streamed, chunks[..last]);
      assert forall i | 0 <= i < last :: chunks[..last][..i] == chunks[..i] && chunks[..last][i] == chunks[i];
      if n == last && !TooMuch(streamed, chunks[..last], chunks[last]) then |chunks| else n
  }

  predicate Overflows(streamed: bool, chunks: seq<Bytes>) {
    Accepted(streamed, chunks) < |chunks|
  }

  // The usage known after some chunks: a plain reply is not looked into before its end.
  function KnownAfter(streamed: bool, json: Json, chunks: seq<Bytes>): Usage {
    var n := Accepted(streamed, chunks);
    var seen := if streamed then Scan(json, Finished(Join(chunks[..n]))) else NOTHING;
    if n < |chunks| then seen.(reported := false) else seen
  }

  // The usage of a whole reply that was taken in: a function of its bytes alone.
  function Measured(streamed: bool, json: Json, reply: Bytes): Usage {
    if streamed then Scan(json, Split(reply)) else Or(Reports(json, reply), NOTHING)
  }

  lemma AcceptedOneMore(streamed: bool, chunks: seq<Bytes>, chunk: Bytes)
    ensures Overflows(streamed, chunks) ==> Accepted(streamed, chunks + [chunk]) == Accepted(streamed, chunks)
    ensures !Overflows(streamed, chunks) ==>
              Accepted(streamed, chunks + [chunk])
              == if TooMuch(streamed, chunks, chunk) then |chunks| else |chunks| + 1
  {
    assert (chunks + [chunk])[..|chunks|] == chunks;
  }

  // How the known usage changes with one more chunk.
  lemma KnownOneMore(streamed: bool, json: Json, chunks: seq<Bytes>, chunk: Bytes)
    ensures var known, more := KnownAfter(streamed, json, chunks), KnownAfter(streamed, json, chunks + [chunk]);
            if Overflows(streamed, chunks) then more == known
            else if TooMuch(streamed, chunks, chunk) then more == known.(reported := false)
            else more == if streamed then Scan(json, Finished(Join(chunks) + chunk)) else NOTHING
  {
    var longer := chunks + [chunk];
    AcceptedOneMore(streamed, chunks, chunk);
    JoinOneMore(chunks, chunk);
    assert longer[..Accepted(streamed, chunks)] == chunks[..Accepted(streamed, chunks)];
    assert longer[..|longer|] == longer;
  }

  // What one more chunk does to everything the fields are defined by.
  lemma OneMoreChunk(streamed: bool, json: Json, chunks: seq<Bytes>, chunk: Bytes)
    ensures var longer := chunks + [chunk];
            var pieces := Split(Unfinished(Join(chunks)) + chunk);
            && (Overflows(streamed, longer) <==> Overflows(streamed, chunks) || TooMuch(streamed, chunks, chunk))
            && (Overflows(streamed, longer) ==>
                 KnownAfter(streamed, json, longer) == KnownAfter(streamed, json, chunks).(reported := false))
            && (!Overflows(streamed, longer) ==>
                  && Join(longer) == Join(chunks) + chunk
                  && Unfinished(Join(longer)) == pieces[|pieces| - 1]
                  && |pieces[|pieces| - 1]| <= |Unfinished(Join(chunks))| + |chunk|
                  && KnownAfter(streamed, json, longer)
                     == if streamed then Scan(json, Finished(Join(chunks)) + pieces[..|pieces| - 1]) else NOTHING)
  {
    AcceptedOneMore(streamed, chunks, chunk);
    KnownOneMore(streamed, json, chunks, chunk);
    JoinOneMore(chunks, chunk);
    UnfinishedContinues(Join(chunks), chunk);
    var tail := Unfinished(Join(chunks)) + chunk;
    PiecesAreShort(tail, |Split(tail)| - 1);
  }

  lemma KnownBeforeOverflow(streamed: bool, json: Json, chunks: seq<Bytes>)
    requires !Overflows(streamed, chunks)
    ensures KnownAfter(streamed, json, chunks) == if streamed then Scan(json, Finished(Join(chunks))) else NOTHING
  {
    assert chunks[..|chunks|] == chunks;
  }

  lemma EmptyLineReportsNothing(json: Json)
    ensures LineReports(json, []) == None
  {
  }

  class Meter {
    const streamed: bool
    const json: Json
    var prompt: nat
    var completion: nat
    var usageReported: bool
    var overflow: bool
    var pending: Bytes
    var whole: Bytes
    // Everything fed so far.
    ghost var chunks: seq<Bytes>

    ghost function Known(): Usage
      reads this
    {
      Usage(prompt, completion, usageReported)
    }

    // The buffers are bounded, and the fields mean what the chunks say.
    ghost predicate Valid()
      reads this
    {
      && |pending| <= MAX_METERED_BYTES
      && |whole| <= MAX_METERED_BYTES
      && overflow == Overflows(streamed, chunks)
      && pending == (if streamed && !overflow then Unfinished(Join(chunks)) else [])
      && whole == (if streamed || overflow then [] else Join(chunks))
      && Known() == KnownAfter(streamed, json, chunks)
    }

    constructor (streamed: bool, json: Json)
      ensures Valid() && chunks == [] && this.streamed == streamed && this.json == json
    {
      this.streamed, this.json := streamed, json;
      prompt, completion, usageReported := 0, 0, false;
      overflow, pending, whole, chunks := false, [], [], [];
    }

    method Feed(chunk: Bytes)
      requires Valid()
      modifies this
      ensures Valid() && chunks == old(chunks) + [chunk]
    {
      if overflow {
        OneMoreChunk(streamed, json, chunks, chunk);
        chunks := chunks + [chunk];
      } else if streamed {
        FeedLines(chunk);
      } else {
        FeedWhole(chunk);
      }
    }

    method FeedWhole(chunk: Bytes)
      requires Valid() && !overflow && !streamed
      modifies this
      ensures Valid() && chunks == old(chunks) + [chunk]
    {
      OneMoreChunk(streamed, json, chunks, chunk);
      KnownBeforeOrOverflow();
      chunks := chunks + [chunk];
      if |whole| + |chunk| <= MAX_METERED_BYTES {
        whole := whole + chunk;
      } else {
        overflow, whole, usageReported := true, [], false;
      }
    }

    method FeedLines(chunk: Bytes)
      requires Valid() && !overflow && streamed
      modifies this
      ensures Valid() && chunks == old(chunks) + [chunk]
    {
      ghost var before := chunks;
      OneMoreChunk(streamed, json, before, chunk);
      KnownBeforeOrOverflow();
      chunks := chunks + [chunk];
      if |pending| + |chunk| > MAX_METERED_BYTES {
        overflow, pending, usageReported := true, [], false;
        return;
      }
      TakeLines(chunk, before);
    }

    method TakeLines(chunk: Bytes, ghost before: seq<Bytes>)
      requires streamed && !overflow && whole == [] && !Overflows(true, before) && !TooMuch(true, before, chunk)
      requires pending == Unfinished(Join(before)) && chunks == before + [chunk]
      requires Known() == Scan(json, Finished(Join(before)))
      modifies this`pending, this`prompt, this`completion, this`usageReported
      ensures Valid()
    {
      OneMoreChunk(true, json, before, chunk);
      var pieces := Split(pending + chunk);
      pending := pieces[|pieces| - 1];
      Events(pieces[..|pieces| - 1], Finished(Join(before)));
    }

    lemma KnownBeforeOrOverflow()
      requires Valid()
      ensures !overflow ==> Known() == if streamed then Scan(json, Finished(Join(chunks))) else NOTHING
    {
      if !overflow {
        KnownBeforeOverflow(streamed, json, chunks);
      }
    }

    method Events(lines: seq<Bytes>, ghost earlier: seq<Bytes>)
      requires Known() == Scan(json, earlier)
      modifies this`prompt, this`completion, this`usageReported
      ensures Known() == Scan(json, earlier + lines)
    {
      assert earlier + lines[..0] == earlier;
      for i := 0 to |lines|
        invariant Known() == Scan(json, earlier + lines[..i])
      {
        ScanOneMore(json, earlier + lines[..i], lines[i]);
        assert earlier + lines[..i + 1] == (earlier + lines[..i]) + [lines[i]];
        Event(lines[i]);
      }
      assert lines[..|lines|] == lines;
    }

    /** The end of the reply. Unless it overflowed, the usage is that of its bytes, however they came. */
    method Finish()
      requires Valid()
      modifies this`prompt, this`completion, this`usageReported
      ensures Known() == if overflow then old(Known()) else Measured(streamed, json, Join(chunks))
      ensures usageReported ==> !overflow
    {
      if overflow {
        return;
      }
      KnownBeforeOverflow(streamed, json, chunks);
      if streamed {
        FinishLines();
      } else {
        Read(whole);
      }
    }

    method FinishLines()
      requires streamed && pending == Unfinished(Join(chunks)) && Known() == Scan(json, Finished(Join(chunks)))
      modifies this`prompt, this`completion, this`usageReported
      ensures Known() == Scan(json, Split(Join(chunks)))
    {
      ScanOneMore(json, Finished(Join(chunks)), pending);
      assert Split(Join(chunks)) == Finished(Join(chunks)) + [pending];
      if pending != [] {
        Event(pending);
      } else {
        EmptyLineReportsNothing(json);
      }
    }

    method Event(line: Bytes)
      modifies this`prompt, this`completion, this`usageReported
      ensures Known() == Or(LineReports(json, line), old(Known()))
    {
      var text := Strip(line);
      if DATA <= text && Contains(text, USAGE) {
        Read(Strip(text[5..]));
      }
    }

    method Read(raw: Bytes)
      modifies this`prompt, this`completion, this`usageReported
      ensures Known() == Or(Reports(json, raw), old(Known()))
    {
      var counts := json(raw);
      if counts.Some? {
        var prompt, completion := counts.value.prompt, counts.value.completion;
        if prompt.Some? && completion.Some? && prompt.value >= 0 && completion.value >= 0 {
          this.prompt, this.completion := prompt.value, completion.value;
          usageReported := true;
        }
      }
    }
  }

  /******* What a reply reports *******/

  // The pieces with a newline after each but the last.
  ghost function Rejoined(pieces: seq<Bytes>): Bytes {
    if pieces == [] then [] else if |pieces| == 1 then pieces[0] else pieces[0] + [10] + Rejoined(pieces[1..])
  }

  /** Splitting cuts at every newline and loses nothing else. */
  lemma {:induction false} SplitIsExact(s: Bytes)
    ensures Rejoined(Split(s)) == s && forall i | 0 <= i < |Split(s)| :: 10 !in Split(s)[i]
    decreases |s|
  {
    if NEWLINE in s {
      var i := Index(s);
      SplitIsExact(s[i + 1..]);
      assert s == s[..i] + [10] + s[i + 1..];
    }
  }

  // A space, a tab, a line end, a vertical tab or a form feed.
  ghost predicate IsBlank(b: byte) {
    b in {9, 10, 11, 12, 13, 32}
  }

  // What is left of a text without the blanks before and after it.
  ghost predicate IsStripped(text: Bytes, s: Bytes) {
    && (text != [] ==> !IsBlank(text[0]) && !IsBlank(text[|text| - 1]))
    && exists i, j :: 0 <= i <= j <= |s| && text == s[i..j] && AllBlank(s[..i]) && AllBlank(s[j..])
  }

  ghost predicate AllBlank(s: Bytes) {
    forall i | 0 <= i < |s| :: IsBlank(s[i])
  }

  ghost predicate CutsLeft(s: Bytes, i: nat) {
    i <= |s| && StripLeft(s) == s[i..] && AllBlank(s[..i])
  }

  lemma {:induction false} LeftStripped(s: Bytes) returns (i: nat)
    ensures CutsLeft(s, i)
    ensures StripLeft(s) != [] ==> !IsBlank(StripLeft(s)[0])
  {
    if s != [] && IsSpace(s[0]) {
      var k := LeftStripped(s[1..]);
      i := k + 1;
      assert s[1..][k..] == s[i..] && s[..i] == [s[0]] + s[1..][..k];
    } else {
      i := 0;
      assert s[0..] == s && s[..0] == [];
    }
  }

  ghost predicate CutsRight(s: Bytes, j: nat) {
    j <= |s| && StripRight(s) == s[..j] && AllBlank(s[j..])
  }

  lemma {:induction false} RightStripped(s: Bytes) returns (j: nat)
    ensures CutsRight(s, j)
    ensures StripRight(s) != [] ==> !IsBlank(StripRight(s)[|StripRight(s)| - 1])
  {
    if s != [] && IsSpace(s[|s| - 1]) {
      var last := |s| - 1;
      j := RightStripped(s[..last]);
      assert s[..last][..j] == s[..j] && s[j..] == s[..last][j..] + [s[last]];
    } else {
      j := |s|;
      assert s[..j] == s && s[j..] == [];
    }
  }

  lemma StripIsExact(s: Bytes)
    ensures IsStripped(Strip(s), s)
  {
    var i := LeftStripped(s);
    var left := StripLeft(s);
    var j := RightStripped(left);
    assert left[..j] == s[i..i + j] && left[j..] == s[i + j..];
    assert Strip(s) != [] ==> Strip(s)[0] == left[0];
  }

  // What the counts of a JSON text say: both are there, and neither is negative.
  ghost predicate Says(counts: Option<Counts>, prompt: int, completion: int) {
    counts == Some(Counts(Some(prompt), Some(completion))) && prompt >= 0 && completion >= 0
  }

  /** A JSON text reports its prompt and completion tokens exactly if both are numbers that are not negative. */
  lemma ReportsExactly(json: Json, raw: Bytes)
    ensures Reports(json, raw).Some? <==> exists p, c :: Says(json(raw), p, c)
    ensures Reports(json, raw).Some? ==>
              var usage := Reports(json, raw).value;
              usage.reported && Says(json(raw), usage.prompt, usage.completion)
  {
    var counts := json(raw);
    if counts.Some? && counts.value.prompt.Some? && counts.value.completion.Some? {
      assert Says(counts, counts.value.prompt.value, counts.value.completion.value)
        <==> counts.value.prompt.value >= 0 && counts.value.completion.value >= 0;
    }
  }

  // data: and "usage", byte by byte.
  ghost predicate IsDataWithUsage(text: Bytes) {
    && |text| >= 5 && text[..5] == [100, 97, 116, 97, 58]
    && exists i {:trigger text[i..]} :: 0 <= i <= |text| && [34, 117, 115, 97, 103, 101, 34] <= text[i..]
  }

  /** A line of an event stream reports what its data does, if it has the word; else nothing. */
  lemma LineReportsExactly(json: Json, line: Bytes)
    ensures LineReports(json, line)
         == if IsDataWithUsage(Strip(line)) then Reports(json, Strip(Strip(line)[5..])) else None
  {
    var text := Strip(line);
    assert DATA <= text <==> |text| >= 5 && text[..5] == [100, 97, 116, 97, 58];
    if IsDataWithUsage(text) {
      assert Contains(text, USAGE);
    }
  }

  /** A plain reply that was taken in reports what it says as one JSON text; of an event stream the last line
      that reports something does; a reply without a report counts nothing. */
  lemma MeasuredExactly(streamed: bool, json: Json, reply: Bytes, k: nat)
    ensures !streamed && Reports(json, reply).Some? ==> Measured(streamed, json, reply) == Reports(json, reply).value
    ensures !streamed && Reports(json, reply).None? ==> Measured(streamed, json, reply) == Usage(0, 0, false)
    ensures streamed && (forall i | 0 <= i < |Split(reply)| :: LineReports(json, Split(reply)[i]).None?) ==>
              Measured(streamed, json, reply) == Usage(0, 0, false)
    ensures streamed && k < |Split(reply)| && LineReports(json, Split(reply)[k]).Some?
            && (forall i | k < i < |Split(reply)| :: LineReports(json, Split(reply)[i]).None?) ==>
              Measured(streamed, json, reply) == LineReports(json, Split(reply)[k]).value
  {
    if streamed && forall i | 0 <= i < |Split(reply)| :: LineReports(json, Split(reply)[i]).None? {
      WithoutReports(json, Split(reply));
    }
    if streamed && k < |Split(reply)| && LineReports(json, Split(reply)[k]).Some?
      && (forall i | k < i < |Split(reply)| :: LineReports(json, Split(reply)[i]).None?) {
      LastReportWins(json, Split(reply), k);
    }
  }

  // The chunk makes the line, or the reply, longer than eight megabytes.
  ghost predicate IsTooMuch(streamed: bool, chunks: seq<Bytes>, i: nat)
    requires i < |chunks|
  {
    (if streamed then |Unfinished(Join(chunks[..i]))| else |Join(chunks[..i])|) + |chunks[i]| > 8388608
  }

  /** The meter overflows exactly if some chunk is too much; what was counted until then stays, but is not
      reported any more. */
  lemma OverflowsExactly(streamed: bool, json: Json, chunks: seq<Bytes>)
    ensures Overflows(streamed, chunks) <==> exists i: nat | i < |chunks| :: IsTooMuch(streamed, chunks, i)
    ensures Overflows(streamed, chunks) ==>
              exists i: nat ::
                && i < |chunks| && IsTooMuch(streamed, chunks, i)
                && KnownAfter(streamed, json, chunks)
                   == if streamed then Scan(json, Finished(Join(chunks[..i]))).(reported := false)
                     else Usage(0, 0, false)
  {
    var n := Accepted(streamed, chunks);
    if n < |chunks| {
      assert IsTooMuch(streamed, chunks, n);
    } else {
      forall i: nat | i < |chunks| ensures !IsTooMuch(streamed, chunks, i) {
        assert !TooMuch(streamed, chunks[..i], chunks[i]);
      }
    }
  }

  /******* Overflow *******/

  /** A plain reply overflows exactly when it is too long, however it is cut. */
  lemma {:induction false} PlainOverflow(chunks: seq<Bytes>)
    ensures Overflows(false, chunks) <==> |Join(chunks)| > 8388608
  {
    if chunks != [] {
      var last := |chunks| - 1;
      PlainOverflow(chunks[..last]);
      assert chunks == chunks[..last] + [chunks[last]];
      AcceptedOneMore(false, chunks[..last], chunks[last]);
    }
  }

  // No line of a stream is too long for the buffer, counting its newline.
  ghost predicate Fits(stream: Bytes) {
    && (forall i | 0 <= i < |Finished(stream)| :: |Finished(stream)[i]| < 8388608)
    && |Unfinished(stream)| <= 8388608
  }

  lemma {:induction false} TakenInFits(chunks: seq<Bytes>)
    requires !Overflows(true, chunks)
    ensures Fits(Join(chunks))
  {
    if chunks != [] {
      var last := |chunks| - 1;
      var before, chunk := chunks[..last], chunks[last];
      assert chunks == before + [chunk];
      AcceptedOneMore(true, before, chunk);
      TakenInFits(before);
      UnfinishedContinues(Join(before), chunk);
      var tail := Unfinished(Join(before)) + chunk;
      forall i | 0 <= i < |Split(tail)|
        ensures |Split(tail)[i]| + (if i < |Split(tail)| - 1 then 1 else 0) <= MAX_METERED_BYTES
      {
        PiecesAreShort(tail, i);
      }
    }
  }

  function Singles(s: Bytes): seq<Bytes> {
    if s == [] then [] else Singles(s[..|s| - 1]) + [[s[|s| - 1]]]
  }

  lemma OneByte(b: byte, s: Bytes)
    requires NEWLINE !in s
    ensures Split(s + [b]) == if b == NEWLINE then [s, []] else [s + [b]]
  {
    if b == NEWLINE {
      var i := |s|;
      assert (s + [b])[..i] == s;
      IndexIs(s + [b], i);
      assert (s + [b])[..i] == s && (s + [b])[i + 1..] == [];
    }
  }

  lemma {:induction false} UnfinishedHasNoNewline(s: Bytes)
    ensures NEWLINE !in Unfinished(s)
    decreases |s|
  {
    if NEWLINE in s {
      UnfinishedHasNoNewline(s[Index(s) + 1..]);
    }
  }

  lemma {:induction false} SinglesAreTakenIn(s: Bytes)
    requires Fits(s)
    ensures Join(Singles(s)) == s && !Overflows(true, Singles(s))
  {
    if s != [] {
      var last := |s| - 1;
      var shorter, b := s[..last], s[last];
      assert s == shorter + [b];
      UnfinishedContinues(shorter, [b]);
      UnfinishedHasNoNewline(shorter);
      OneByte(b, Unfinished(shorter));
      assert b == NEWLINE ==> Finished(s)[|Finished(shorter)|] == Unfinished(shorter);
      assert forall i | 0 <= i < |Finished(shorter)| :: Finished(shorter)[i] == Finished(s)[i];
      SinglesAreTakenIn(shorter);
      JoinOneMore(Singles(shorter), [b]);
      AcceptedOneMore(true, Singles(shorter), [b]);
    }
  }

  /** An event stream can be cut so that the meter takes it in exactly when every line fits. */
  lemma StreamCanBeTakenIn(stream: Bytes)
    ensures (exists chunks :: Join(chunks) == stream && !Overflows(true, chunks)) <==> Fits(stream)
  {
    if chunks :| Join(chunks) == stream && !Overflows(true, chunks) {
      TakenInFits(chunks);
    }
    if Fits(stream) {
      SinglesAreTakenIn(stream);
    }
  }

  lemma {:induction false} EmptyLinesFit(s: Bytes)
    requires forall i | 0 <= i < |s| :: s[i] == NEWLINE
    ensures Fits(s) && Unfinished(s) == []
  {
    if s != [] {
      EmptyLinesFit(s[1..]);
      assert s[..0] == [];
      IndexIs(s, 0);
      assert Split(s) == [[]] + Split(s[1..]);
      assert Finished(s) == [[]] + Finished(s[1..]);
    }
  }

  lemma {:induction false} ShortIsTakenIn(chunks: seq<Bytes>)
    requires |Join(chunks)| <= MAX_METERED_BYTES
    ensures !Overflows(true, chunks)
  {
    if chunks != [] {
      var last := |chunks| - 1;
      var before := chunks[..last];
      assert chunks == before + [chunks[last]];
      JoinOneMore(before, chunks[last]);
      ShortIsTakenIn(before);
      PiecesAreShort(Join(before), |Split(Join(before))| - 1);
      AcceptedOneMore(true, before, chunks[last]);
    }
  }

  lemma LongOverflowsAtOnce(stream: Bytes)
    requires |stream| > MAX_METERED_BYTES
    ensures Join([stream]) == stream && Overflows(true, [stream])
  {
    JoinOneMore([], stream);
    assert [] + [stream] == [stream];
    AcceptedOneMore(true, [], stream);
  }

  /** An event stream can be cut so that the meter overflows exactly when it is longer than the buffer. */
  lemma StreamCanOverflow(stream: Bytes)
    ensures (exists chunks :: Join(chunks) == stream && Overflows(true, chunks)) <==> |stream| > 8388608
  {
    if chunks :| Join(chunks) == stream && Overflows(true, chunks) {
      if |stream| <= MAX_METERED_BYTES { ShortIsTakenIn(chunks); }
    }
    if |stream| > MAX_METERED_BYTES {
      LongOverflowsAtOnce(stream);
    }
  }

  ghost predicate IsCut(chunks: seq<Bytes>, stream: Bytes) {
    Join(chunks) == stream
  }

  // The stream alone decides whether it is taken in.
  ghost predicate OneFate(stream: Bytes) {
    |stream| <= 8388608 || !Fits(stream)
  }

  lemma FateOfCut(stream: Bytes, chunks: seq<Bytes>)
    requires IsCut(chunks, stream) && OneFate(stream)
    ensures Overflows(true, chunks) <==> !Fits(stream)
  {
    if |stream| <= MAX_METERED_BYTES { ShortIsTakenIn(chunks); }
    if !Overflows(true, chunks) { TakenInFits(chunks); }
  }

  lemma TwoFates(stream: Bytes)
    requires !OneFate(stream)
    ensures IsCut([stream], stream) && Overflows(true, [stream])
    ensures IsCut(Singles(stream), stream) && !Overflows(true, Singles(stream))
  {
    LongOverflowsAtOnce(stream);
    SinglesAreTakenIn(stream);
  }

  /** All cuts of an event stream agree on whether the meter overflows if and only if the stream is no
      longer than the buffer or has a line that does not fit it. */
  lemma CutsAgreeOnOverflow(stream: Bytes)
    ensures (forall a, b | IsCut(a, stream) && IsCut(b, stream) :: Overflows(true, a) <==> Overflows(true, b)) <==>
              OneFate(stream)
  {
    if OneFate(stream) {
      forall a, b | IsCut(a, stream) && IsCut(b, stream) ensures Overflows(true, a) <==> Overflows(true, b) {
        FateOfCut(stream, a);
        FateOfCut(stream, b);
      }
    } else {
      TwoFates(stream);
    }
  }

  /** Whether a long event stream overflows can depend on how it is cut. */
  lemma CuttingDecidesOverflow()
    ensures exists a, b :: Join(a) == Join(b) && Overflows(true, a) && !Overflows(true, b)
  {
    var s := seq(MAX_METERED_BYTES + 1, _ => NEWLINE);
    EmptyLinesFit(s);
    SinglesAreTakenIn(s);
    JoinOneMore([], s);
    assert [] + [s] == [s];
    AcceptedOneMore(true, [], s);
    assert Overflows(true, [s]);
  }

  /******* A whole reply *******/

  // What the meter says once a reply, cut into these chunks, has ended.
  function AtTheEnd(streamed: bool, json: Json, chunks: seq<Bytes>): Usage {
    if Overflows(streamed, chunks) then KnownAfter(streamed, json, chunks) else Measured(streamed, json, Join(chunks))
  }

  method MeterReply(streamed: bool, json: Json, chunks: seq<Bytes>) returns (usage: Usage)
    ensures usage == AtTheEnd(streamed, json, chunks)
    ensures usage.reported ==> !Overflows(streamed, chunks)
  {
    var meter := new Meter(streamed, json);
    for i := 0 to |chunks|
      invariant meter.Valid() && fresh(meter) && meter.chunks == chunks[..i]
      invariant meter.streamed == streamed && meter.json == json
    {
      meter.Feed(chunks[i]);
      assert chunks[..i + 1] == chunks[..i] + [chunks[i]];
    }
    assert chunks[..|chunks|] == chunks;
    ghost var reply, overflow := Join(chunks), meter.overflow;
    meter.Finish();
    assert meter.Known() == if overflow then KnownAfter(streamed, json, chunks) else Measured(streamed, json, reply);
    usage := Usage(meter.prompt, meter.completion, meter.usageReported);
  }

  /** Two ways of cutting one reply measure the same if it is plain, or no longer than the buffer, or taken
      in both ways; and whenever both report a usage, it is the same. */
  lemma CutsAgree(streamed: bool, json: Json, a: seq<Bytes>, b: seq<Bytes>)
    requires Join(a) == Join(b)
    ensures !streamed || |Join(a)| <= 8388608 || (!Overflows(true, a) && !Overflows(true, b)) ==>
              AtTheEnd(streamed, json, a) == AtTheEnd(streamed, json, b)
    ensures AtTheEnd(streamed, json, a).reported && AtTheEnd(streamed, json, b).reported ==>
              AtTheEnd(streamed, json, a) == AtTheEnd(streamed, json, b)
  {
    PlainOverflow(a);
    PlainOverflow(b);
    if |Join(a)| <= MAX_METERED_BYTES {
      ShortIsTakenIn(a);
      ShortIsTakenIn(b);
    }
  }

  // The usage a reply is counted by, if it reported one.
  function ReportedAtTheEnd(json: Json, chunks: seq<Bytes>): Option<Usage> {
    if AtTheEnd(true, json, chunks).reported then Some(AtTheEnd(true, json, chunks)) else None
  }

  lemma ReportOfCut(json: Json, stream: Bytes, chunks: seq<Bytes>)
    requires IsCut(chunks, stream)
    ensures ReportedAtTheEnd(json, chunks)
         == if Overflows(true, chunks) || !Measured(true, json, stream).reported then None
            else Some(Measured(true, json, stream))
  {
  }

  /** All cuts of an event stream report the same usage if and only if it is no longer than the buffer, or
      has a line that does not fit it, or has no usage to report. */
  lemma CutsAgreeOnReport(json: Json, stream: Bytes)
    ensures (forall a, b | IsCut(a, stream) && IsCut(b, stream) ::
              ReportedAtTheEnd(json, a) == ReportedAtTheEnd(json, b))
            <==> OneFate(stream) || !Measured(true, json, stream).reported
  {
    if OneFate(stream) || !Measured(true, json, stream).reported {
      forall a, b | IsCut(a, stream) && IsCut(b, stream)
        ensures ReportedAtTheEnd(json, a) == ReportedAtTheEnd(json, b)
      {
        ReportOfCut(json, stream, a);
        ReportOfCut(json, stream, b);
        if OneFate(stream) {
          FateOfCut(stream, a);
          FateOfCut(stream, b);
        }
      }
    } else {
      TwoFates(stream);
      ReportOfCut(json, stream, [stream]);
      ReportOfCut(json, stream, Singles(stream));
      assert ReportedAtTheEnd(json, [stream]) != ReportedAtTheEnd(json, Singles(stream));
    }
  }
}
