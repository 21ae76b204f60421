/** Reading the file whose content the server appends (file.h). */
module FileReader {
  import opened Bytes
  import opened Wrappers

  const BUFFER_SIZE := 65536

  /** What one call of read(2) did. */
  datatype Read = Chunk(bytes: seq<Byte>) | Failed

  datatype FileError = CouldNotOpenFile | ErrorReadingFile

  /** read(2) never returns more than was asked for. */
  predicate Fits(r: Read) {
    r.Chunk? ==> |r.bytes| <= BUFFER_SIZE - 1
  }

  predicate EndsLoop(r: Read) {
    r == Chunk([]) || r.Failed?
  }

  /** The results of successive reads: an endless supply of data is the only thing excluded. */
  predicate Script(results: seq<Read>) {
    && (forall i :: 0 <= i < |results| ==> Fits(results[i]))
    && exists i :: 0 <= i < |results| && EndsLoop(results[i])
  }

  /** The reads deliver the file in some split, then report end of file. */
  predicate Delivers(results: seq<Read>, file: seq<Byte>) {
    && results != []
    && results[0].Chunk?
    && results[0].bytes <= file
    && if results[0].bytes == [] then file == []
       else Delivers(results[1..], file[|results[0].bytes|..])
  }

  /** Appending `buffer` as a C string loses what follows a NUL of the chunk. */
  function Content(results: seq<Read>): Result<seq<Byte>, FileError> {
    if results == [] || results[0].Failed? then Failure(ErrorReadingFile)
    else if results[0].bytes == [] then Success([])
    else Prefixed(CString(results[0].bytes), Content(results[1..]))
  }

  function Prefixed(content: seq<Byte>, rest: Result<seq<Byte>, FileError>): Result<seq<Byte>, FileError> {
    match rest
    case Success(text) => Success(content + text)
    case Failure(e) => Failure(e)
  }

  /** Opening the file and reading it: there are no reads when it cannot be opened. */
  function OpenedContent(file: Option<seq<Read>>): Result<seq<Byte>, FileError> {
    match file
    case Some(results) => Content(results)
    case None => Failure(CouldNotOpenFile)
  }

  /** Some read fails, and none before it finds the end of the file. */
  ghost predicate ReadFails(results: seq<Read>) {
    exists i :: 0 <= i < |results| && results[i].Failed? && forall j :: 0 <= j < i ==> results[j] != Chunk([])
  }

  /** The loop ends with read number k. */
  ghost predicate EndsAt(results: seq<Read>, k: nat) {
    k < |results| && EndsLoop(results[k]) && forall i :: 0 <= i < k ==> !EndsLoop(results[i])
  }

  /** What is kept of the first n chunks: each up to its first NUL. */
  function KeptOf(results: seq<Read>, n: nat): seq<Byte>
    requires n <= |results| && forall i :: 0 <= i < n ==> results[i].Chunk?
  {
    if n == 0 then [] else KeptOf(results, n - 1) + CString(results[n - 1].bytes)
  }

  lemma {:induction false} KeptFromFirst(results: seq<Read>, rest: seq<Read>, n: nat)
    requires 0 < n <= |results| && results[1..] == rest && forall i :: 0 <= i < n ==> results[i].Chunk?
    requires forall i :: 0 <= i < n - 1 ==> rest[i].Chunk?
    ensures KeptOf(results, n) == CString(results[0].bytes) + KeptOf(rest, n - 1)
  {
    if n > 1 {
      KeptFromFirst(results, rest, n - 1);
      assert results[n - 1] == rest[n - 2];
    } else {
      assert KeptOf(results, 0) == [] && KeptOf(rest, 0) == [];
    }
  }

  /** A failed read is an error, whatever was read before it; the end of the file is not. */
  lemma {:induction false} ContentByReads(results: seq<Read>, k: nat)
    requires EndsAt(results, k)
    ensures Content(results) == if results[k].Failed? then Failure(ErrorReadingFile) else Success(KeptOf(results, k))
  {
    if k > 0 {
      var rest := results[1..];
      assert rest[k - 1] == results[k] && forall i :: 0 <= i < k - 1 ==> rest[i] == results[i + 1];
      assert !EndsLoop(results[0]);
      ContentByReads(rest, k - 1);
      if !results[k].Failed? {
        KeptFromFirst(results, rest, k);
      }
    }
  }

  lemma FirstEnd(results: seq<Read>) returns (k: nat)
    requires Script(results)
    ensures EndsAt(results, k)
  {
    k := 0;
    while !EndsLoop(results[k])
      invariant k < |results| && forall i :: 0 <= i < k ==> !EndsLoop(results[i])
      invariant exists i :: k <= i < |results| && EndsLoop(results[i])
      decreases |results| - k
    {
      k := k + 1;
    }
  }

  /** Reading fails exactly when some read fails before the end of the file is found. */
  lemma {:induction false} ReadFailsExactly(results: seq<Read>)
    requires Script(results)
    ensures Content(results) == Failure(ErrorReadingFile) <==> ReadFails(results)
    ensures Content(results).Failure? ==> Content(results) == Failure(ErrorReadingFile)
  {
    var k := FirstEnd(results);
    ContentByReads(results, k);
    if ReadFails(results) {
      var i :| 0 <= i < |results| && results[i].Failed? && forall j :: 0 <= j < i ==> results[j] != Chunk([]);
      assert EndsLoop(results[i]);
    }
  }

  /** Whatever the reads are, the text kept has no NUL. */
  lemma {:induction false} ContentIsNulFree(results: seq<Read>)
    ensures Content(results).Success? ==> NulFree(Content(results).value)
  {
    if results != [] && results[0].Chunk? && results[0].bytes != [] {
      CStringIsPrefix(results[0].bytes);
      ContentIsNulFree(results[1..]);
    }
  }

  /** In whatever split it arrives, the file is kept whole exactly when it has no NUL. */
  lemma {:induction false} ContentIsWholeFile(results: seq<Read>, file: seq<Byte>)
    requires Delivers(results, file)
    ensures Content(results).Success?
    ensures |Content(results).value| <= |file|
    ensures Content(results).value == file <==> NulFree(file)
  {
    var chunk := results[0].bytes;
    if chunk != [] {
      var rest := file[|chunk|..];
      assert file == chunk + rest;
      ContentIsWholeFile(results[1..], rest);
      CStringIsPrefix(chunk);
      var kept := CString(chunk);
      if kept + Content(results[1..]).value == file {
        assert |kept| == |chunk|;
        assert file[..|chunk|] == kept;
        assert file[|chunk|..] == Content(results[1..]).value;
      }
    }
  }

  /** A split of the file into reads that fit the buffer. */
  ghost predicate Splits(results: seq<Read>, file: seq<Byte>) {
    Delivers(results, file) && forall i :: 0 <= i < |results| ==> Fits(results[i])
  }

  /** A file of up to 65535 octets can come in one read. */
  lemma OneReadWillDo(file: seq<Byte>)
    requires 0 < |file| <= 65535
    ensures Splits([Chunk(file), Chunk([])], file)
  {
    var results := [Chunk(file), Chunk([])];
    assert results[1..] == [Chunk([])] && file[|file|..] == [];
  }

  /** Whatever the split, the same is kept. */
  ghost predicate SplitDoesNotMatter(file: seq<Byte>) {
    forall one, other :: Splits(one, file) && Splits(other, file) ==> Content(one) == Content(other)
  }

  /** Nothing but NUL comes after a NUL. */
  predicate NulsAtEnd(file: seq<Byte>) {
    forall i, j :: 0 <= i < j < |file| && file[i] == NUL ==> file[j] == NUL
  }

  lemma NulsAtEndOfRest(front: seq<Byte>, rest: seq<Byte>)
    requires NulsAtEnd(front + rest)
    ensures NulsAtEnd(rest)
    ensures NUL in front ==> CString(rest) == []
  {
    var file, n := front + rest, |front|;
    forall i, j | 0 <= i < j < |rest| && rest[i] == NUL
      ensures rest[j] == NUL
    {
      assert file[n + i] == NUL && file[n + j] == rest[j];
    }
    if NUL in front && rest != [] {
      var i :| 0 <= i < n && front[i] == NUL;
      assert file[i] == NUL && file[n] == rest[0];
    }
  }

  lemma CStringOfParts(front: seq<Byte>, rest: seq<Byte>)
    requires NulsAtEnd(front + rest)
    ensures CString(front + rest) == CString(front) + CString(rest)
  {
    NulsAtEndOfRest(front, rest);
    if NulFree(front) {
      CStringOfConcat(front, rest);
      CStringIsPrefix(front);
    } else {
      CStringEndsInFront(front, rest);
    }
  }

  lemma {:induction false} CStringEndsInFront(front: seq<Byte>, rest: seq<Byte>)
    requires NUL in front
    ensures CString(front + rest) == CString(front)
  {
    if front[0] != NUL {
      assert front == [front[0]] + front[1..];
      CStringEndsInFront(front[1..], rest);
      assert (front + rest)[1..] == front[1..] + rest;
    }
  }

  lemma {:induction false} CStringOfConcat(text: seq<Byte>, rest: seq<Byte>)
    requires NulFree(text)
    ensures CString(text + rest) == text + CString(rest)
  {
    if text == [] {
      assert text + rest == rest;
    } else {
      assert text[0] in text && NulFree(text[1..]);
      CStringOfConcat(text[1..], rest);
      assert (text + rest)[1..] == text[1..] + rest;
      assert text == [text[0]] + text[1..];
    }
  }

  /** With all NULs at its end, what comes before them is kept in every split. */
  lemma {:induction false} ContentBeforeNuls(results: seq<Read>, file: seq<Byte>)
    requires Delivers(results, file) && NulsAtEnd(file)
    ensures Content(results) == Success(CString(file))
  {
    var chunk := results[0].bytes;
    if chunk != [] {
      var rest := file[|chunk|..];
      assert file == chunk + rest;
      CStringOfParts(chunk, rest);
      NulsAtEndOfRest(chunk, rest);
      ContentBeforeNuls(results[1..], rest);
    }
  }

  /** One read for each octet. */
  function OctetByOctet(file: seq<Byte>): seq<Read> {
    if file == [] then [] else [Chunk([file[0]])] + OctetByOctet(file[1..])
  }

  function WithoutNuls(file: seq<Byte>): seq<Byte> {
    if file == [] then []
    else (if file[0] == NUL then [] else [file[0]]) + WithoutNuls(file[1..])
  }

  /** Octet by octet, everything but the NULs is kept. */
  lemma {:induction false} OctetsKept(front: seq<Byte>, more: seq<Read>, rest: seq<Byte>)
    requires Splits(more, rest)
    ensures Splits(OctetByOctet(front) + more, front + rest)
    ensures Content(OctetByOctet(front) + more) == Prefixed(WithoutNuls(front), Content(more))
  {
    var all := OctetByOctet(front) + more;
    if front == [] {
      assert all == more && front + rest == rest;
      PrefixedUnfolds([], [], Content(more));
    } else {
      OctetsKept(front[1..], more, rest);
      var tail := OctetByOctet(front[1..]) + more;
      assert all == [Chunk([front[0]])] + tail && all[1..] == tail;
      assert (front + rest)[1..] == front[1..] + rest;
      OctetKept(front[0]);
      PrefixedUnfolds(CString([front[0]]), WithoutNuls(front[1..]), Content(more));
    }
  }

  lemma OctetKept(octet: Byte)
    ensures CString([octet]) == if octet == NUL then [] else [octet]
  {
    assert [octet][1..] == [];
  }

  lemma FirstSplit(file: seq<Byte>)
    returns (k: nat)
    requires !NulsAtEnd(file)
    ensures k + 1 < |file| && file[k] == NUL && file[k + 1] != NUL
  {
    var i, j :| 0 <= i < j < |file| && file[i] == NUL && file[j] != NUL;
    k := i;
    while file[k + 1] == NUL
      invariant i <= k < j && file[k] == NUL
      decreases j - k
    {
      k := k + 1;
    }
  }

  /** An octet after a NUL: read by itself it is kept, read with the NUL it is lost. */
  lemma PairKept(nul: seq<Byte>, tail: seq<Read>)
    requires |nul| == 2 && nul[0] == NUL && nul[1] != NUL
    ensures WithoutNuls(nul) == [nul[1]]
    ensures Content([Chunk(nul)] + tail) == Prefixed([], Content(tail))
  {
    assert nul[1..] == [nul[1]] && [nul[1]][1..] == [];
    assert WithoutNuls([nul[1]]) == [nul[1]];
    var together := [Chunk(nul)] + tail;
    assert together[1..] == tail && together[0] == Chunk(nul);
  }

  lemma PairSplits(nul: seq<Byte>, tail: seq<Read>, rest: seq<Byte>)
    requires |nul| == 2 && Splits(tail, rest)
    ensures Splits([Chunk(nul)] + tail, nul + rest)
  {
    var together := [Chunk(nul)] + tail;
    assert together[1..] == tail && (nul + rest)[|nul|..] == rest;
  }

  lemma PrefixesDiffer(front: seq<Byte>, one: seq<Byte>, other: seq<Byte>, rest: Result<seq<Byte>, FileError>)
    requires rest.Success? && |one| != |other|
    ensures Prefixed(front, Prefixed(one, rest)) != Prefixed(front, Prefixed(other, rest))
  {
    assert |front + (one + rest.value)| != |front + (other + rest.value)|;
  }

  lemma OctetAfterNul(file: seq<Byte>, k: nat) returns (kept: seq<Read>, lost: seq<Read>)
    requires k + 1 < |file| && file[k] == NUL && file[k + 1] != NUL
    ensures Splits(kept, file) && Splits(lost, file) && Content(kept) != Content(lost)
  {
    var front, nul, rest := file[..k], file[k..k + 2], file[k + 2..];
    var last := [Chunk([])];
    var tail := OctetByOctet(rest) + last;
    assert rest + [] == rest && file == front + (nul + rest);
    OctetsKept(rest, last, []);
    PairKept(nul, tail);
    PairSplits(nul, tail, rest);
    OctetsKept(nul, tail, rest);
    var apart, together := OctetByOctet(nul) + tail, [Chunk(nul)] + tail;
    OctetsKept(front, apart, nul + rest);
    OctetsKept(front, together, nul + rest);
    kept, lost := OctetByOctet(front) + apart, OctetByOctet(front) + together;
    PrefixesDiffer(WithoutNuls(front), [nul[1]], [], Content(tail));
  }

  /** The split does not matter exactly when no other octet comes after a NUL. */
  lemma SplitMattersExactly(file: seq<Byte>)
    ensures SplitDoesNotMatter(file) <==> NulsAtEnd(file)
    ensures NulsAtEnd(file) ==> forall results :: Splits(results, file) ==> Content(results) == Success(CString(file))
  {
    if NulsAtEnd(file) {
      forall results | Splits(results, file)
        ensures Content(results) == Success(CString(file))
      {
        ContentBeforeNuls(results, file);
      }
    } else {
      var k := FirstSplit(file);
      var kept, lost := OctetAfterNul(file, k);
    }
  }

  /** Two splits of one file of which different parts are kept. */
  lemma SplitMatters() returns (file: seq<Byte>, whole: seq<Read>, split: seq<Read>)
    ensures Delivers(whole, file) && Delivers(split, file)
    ensures Content(whole) == Success([65]) && Content(split) == Success([65, 66])
  {
    file := [65, NUL, 66];
    whole, split := [Chunk(file), Chunk([])], [Chunk([65, NUL]), Chunk([66]), Chunk([])];
    var last, tail := [Chunk([])], split[1..];
    assert whole[1..] == last && tail == [Chunk([66]), Chunk([])] && tail[1..] == last;
    assert Content(last) == Success([]);
    CStringIsPrefix([66]);
    CStringStopsAtNul([65], [66]);
    CStringStopsAtNul([65], []);
    CStringIsPrefix([65]);
    assert Content(tail) == Success([66]);
    assert [65, NUL, 66] == [65] + [NUL] + [66] && [65, NUL] == [65] + [NUL] + [];
    assert Content(split) == Prefixed([65], Content(tail));
    assert [65] + [66] == [65, 66];
  }

  /** read_content: a do-while loop over one reused buffer. */
  method ReadContent(results: seq<Read>) returns (r: Result<seq<Byte>, FileError>)
    requires Script(results)
    ensures r == Content(results)
    ensures r == Failure(ErrorReadingFile) <==> ReadFails(results)
  {
    ReadFailsExactly(results);
    var buffer := new Byte[BUFFER_SIZE](_ => 0);
    var content: seq<Byte> := [];
    var next := 0;
    var length := 1;
    assert results[0..] == results;
    PrefixedUnfolds([], [], Content(results));
    while length > 0
      invariant 0 <= next <= |results|
      invariant length > 0 ==> exists i :: next <= i < |results| && EndsLoop(results[i])
      invariant length == 0 ==> Content(results) == Success(content)
      invariant length > 0 ==> Content(results) == Prefixed(content, Content(results[next..]))
      decreases length > 0, |results| - next
    {
      if results[next].Failed? {
        return Failure(ErrorReadingFile);
      }
      var chunk := results[next].bytes;
      length := |chunk|;
      forall i | 0 <= i < length {
        buffer[i] := chunk[i];
      }
      buffer[length] := NUL;
      AppendsChunk(buffer[..], chunk);
      PrefixedUnfolds(content, CString(chunk), Content(results[next + 1..]));
      assert results[next..][1..] == results[next + 1..];
      content := content + CString(buffer[..]);
      next := next + 1;
    }
    return Success(content);
  }

  lemma PrefixedUnfolds(content: seq<Byte>, chunk: seq<Byte>, rest: Result<seq<Byte>, FileError>)
    ensures Prefixed(content, Prefixed(chunk, rest)) == Prefixed(content + chunk, rest)
    ensures Prefixed([], rest) == rest
  {
    if rest.Success? {
      assert content + (chunk + rest.value) == (content + chunk) + rest.value;
      assert [] + rest.value == rest.value;
    }
  }

  /** The terminator stored after the chunk hides what earlier reads left in the buffer. */
  lemma AppendsChunk(memory: seq<Byte>, chunk: seq<Byte>)
    requires |chunk| < |memory| && memory[..|chunk|] == chunk && memory[|chunk|] == NUL
    ensures CString(memory) == CString(chunk)
  {
    assert memory == chunk + [NUL] + memory[|chunk| + 1..];
    CStringStopsAtNul(chunk, memory[|chunk| + 1..]);
  }
}
