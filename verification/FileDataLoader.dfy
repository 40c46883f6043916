/** Filling the payload from a file: the sizing of the buffers, the window reads that
    fill them, and the buffer that each sample carries. */
module FileDataLoader {
  import opened Bytes
  import opened Machine
  import opened Messages

  /** What initialization comes to. An empty payload divides by its size of zero, and a
      read of the whole file can pass the end of a shorter buffer. */
  datatype Outcome = Loaded | Refused | DividesByZero | PassesBufferEnd

  /** Reads a window of the file into the caller's buffer; both arguments of the window
      are 32-bit, and asking for no bytes means the whole file. A read that asks for more
      than the file holds fails with -1; one that starts too late stops at the end of the
      file but still reports its full length. */
  method ReadFile(file: seq<Byte>, outputData: array<Byte>, bytesToRead: nat, startPos: nat) returns (read: int)
    requires bytesToRead < TWO32 && startPos < TWO32
    requires outputData.Length >= if bytesToRead == 0 then |file| else bytesToRead
    modifies outputData
    ensures bytesToRead > |file| ==> read == -1 && outputData[..] == old(outputData[..])
    ensures bytesToRead <= |file| ==>
              && read == (if bytesToRead == 0 then |file| else bytesToRead)
              && var n := Max(0, Min(read, |file| - startPos));
                 && outputData[n..] == old(outputData[n..])
                 && (n > 0 ==> outputData[..n] == file[startPos..startPos + n])
  {
    var pos := |file|;
    if bytesToRead != 0 && bytesToRead < pos {
      pos := bytesToRead;
    } else if bytesToRead > pos {
      return -1;
    }
    var n := Max(0, Min(pos, |file| - startPos));
    forall i | 0 <= i < n {
      outputData[i] := file[startPos + i];
    }
    read := pos;
  }

  /** The size of a buffer, as configured or taken from the file. */
  function BufferSize(fileSize: nat, dataLen: Option<nat>, maximum: nat): (size: nat)
    requires dataLen.Some? ==> dataLen.value >= OVERHEAD_BYTES
  {
    match dataLen
    case Some(length) => length - OVERHEAD_BYTES
    case None => Min(fileSize, maximum)
  }

  /** Without a payload length there is one buffer, as large as the file and the limit allow;
      with one, a buffer is a payload without its overhead. */
  lemma BufferSizeRule(fileSize: nat, dataLen: Option<nat>, maximum: nat)
    requires fileSize > 0 && maximum > 0 && (dataLen.Some? ==> dataLen.value >= OVERHEAD_BYTES)
    ensures var size := BufferSize(fileSize, dataLen, maximum);
            && (dataLen.None? ==>
                  && 0 < size <= fileSize && size <= maximum && (size == fileSize || size == maximum)
                  && UInt32(Min(maximum, fileSize) / size) == 1)
            && (dataLen.Some? ==> size + 28 == dataLen.value)
  {
    var size := BufferSize(fileSize, dataLen, maximum);
    if dataLen.None? {
      DivModUnique(size, size, 1, 0);
    }
  }

  /** How many bytes the read of one buffer comes to: its size is cut to 32 bits on the
      way, and a size that is cut to zero asks for the whole file. */
  function ReadLength(fileSize: nat, size: nat): (length: nat) {
    if UInt32(size) == 0 then fileSize else UInt32(size)
  }

  predicate PassesEnd(fileSize: nat, size: nat) { ReadLength(fileSize, size) > size }

  /** Where buffer `i` begins in the file: after what was read so far, cut to 32 bits. */
  function WindowStart(fileSize: nat, size: nat, i: nat): (start: nat) {
    MulNonNegative(i, ReadLength(fileSize, size));
    UInt32(i * ReadLength(fileSize, size))
  }

  /** What loading leaves in the buffers: each holds its window, which does not pass the
      end of the file; nothing is said of bytes that no read has written. */
  ghost predicate HoldsWindows(file: seq<Byte>, contents: seq<seq<Byte>>, size: nat) {
    var length := ReadLength(|file|, size);
    && length <= size
    && forall k :: 0 <= k < |contents| ==> HoldsWindow(contents[k], file, WindowStart(|file|, size, k), length, size)
  }

  ghost predicate HoldsWindow(content: seq<Byte>, file: seq<Byte>, start: nat, length: nat, size: nat)
    requires length <= size
  {
    |content| == size && start + length <= |file| && content[..length] == file[start..start + length]
  }

  ghost function ContentsOf(buffers: seq<array<Byte>>): (contents: seq<seq<Byte>>)
    reads set k | 0 <= k < |buffers| :: buffers[k]
    ensures |contents| == |buffers|
    ensures forall k :: 0 <= k < |buffers| ==> contents[k] == buffers[k][..]
  {
    if buffers == [] then [] else
      var last := |buffers| - 1;
      assert forall k :: 0 <= k < last ==> buffers[..last][k] == buffers[k];
      ContentsOf(buffers[..last]) + [buffers[last][..]]
  }

  class Loader {
    var bufferSize: nat
    var numberOfBuffers: nat
    var dataBuffers: seq<array<Byte>>
    var readIndex: nat

    ghost predicate Valid()
      reads this
    {
      numberOfBuffers > 0 && |dataBuffers| == numberOfBuffers && readIndex < numberOfBuffers < TWO32
    }

    constructor ()
      ensures readIndex == 0 && dataBuffers == []
    {
      bufferSize, numberOfBuffers, dataBuffers, readIndex := 0, 0, [], 0;
    }

    /** `dataLen` is the payload option if it was set; its range starts at the overhead. */
    method Initialize(file: seq<Byte>, dataLen: Option<nat>, maximum: nat)
      returns (outcome: Outcome, newDataLen: nat)
      requires readIndex == 0 && maximum > 0
      requires dataLen.Some? ==> OVERHEAD_BYTES <= dataLen.value
      modifies this
      ensures var size := BufferSize(|file|, dataLen, maximum);
              outcome == if file == [] || size > maximum then Refused
                         else if size == 0 then DividesByZero
                         else if UInt32(Min(maximum, |file|) / size) < 1 then Refused
                         else if PassesEnd(|file|, size) then PassesBufferEnd
                         else Loaded
      ensures outcome.Loaded? ==>
                && Valid() && readIndex == 0
                && bufferSize == BufferSize(|file|, dataLen, maximum)
                && newDataLen == bufferSize + OVERHEAD_BYTES
                && numberOfBuffers == UInt32(Min(maximum, |file|) / bufferSize)
                && numberOfBuffers * bufferSize <= Min(maximum, |file|)
                && HoldsWindows(file, ContentsOf(dataBuffers), bufferSize)
                && (Sound(|file|, bufferSize, numberOfBuffers) ==>
                      Concat(ContentsOf(dataBuffers)) == file[..numberOfBuffers * bufferSize])
    {
      newDataLen := 0;
      if |file| == 0 {
        return Refused, newDataLen;
      }
      if dataLen.Some? {
        bufferSize := dataLen.value - OVERHEAD_BYTES;
        if bufferSize > maximum {
          return Refused, newDataLen;
        }
      } else {
        bufferSize := |file|;
        if bufferSize > maximum {
          bufferSize := maximum;
        }
      }
      newDataLen := bufferSize + OVERHEAD_BYTES;
      if bufferSize == 0 {
        return DividesByZero, newDataLen;
      }
      numberOfBuffers := UInt32(Min(maximum, |file|) / bufferSize);
      if numberOfBuffers < 1 {
        return Refused, newDataLen;
      }
      WindowsFit(Min(maximum, |file|), bufferSize, numberOfBuffers);
      if PassesEnd(|file|, bufferSize) {
        return PassesBufferEnd, newDataLen;
      }
      LoadFileIntoBuffers(file);
      if Sound(|file|, bufferSize, numberOfBuffers) {
        SoundIsPrefix(file, ContentsOf(dataBuffers), bufferSize, numberOfBuffers);
      }
      outcome := Loaded;
    }

    method LoadFileIntoBuffers(file: seq<Byte>)
      requires 0 < bufferSize && 0 < numberOfBuffers && numberOfBuffers * bufferSize <= |file|
      requires !PassesEnd(|file|, bufferSize)
      modifies this`dataBuffers
      ensures |dataBuffers| == numberOfBuffers
      ensures HoldsWindows(file, ContentsOf(dataBuffers), bufferSize)
    {
      hide PassesEnd, ReadLength, HoldsWindow;
      dataBuffers := [];
      var totalBytesRead := 0;
      var i := 0;
      NoOverrun(|file|, bufferSize);
      while i < numberOfBuffers
        invariant 0 <= i == |dataBuffers| <= numberOfBuffers
        invariant totalBytesRead == i * ReadLength(|file|, bufferSize)
        invariant forall k :: 0 <= k < i ==> fresh(dataBuffers[k])
        invariant forall k :: 0 <= k < i ==>
                    HoldsWindow(dataBuffers[k][..], file, WindowStart(|file|, bufferSize, k),
                                ReadLength(|file|, bufferSize), bufferSize)
      {
        WindowInFile(i, numberOfBuffers, bufferSize, |file|);
        var buffer, currentBytesRead := LoadBuffer(file, bufferSize, totalBytesRead);
        totalBytesRead := totalBytesRead + currentBytesRead;
        dataBuffers := dataBuffers + [buffer];
        i := i + 1;
      }
    }

    method GetNextBuffer() returns (current: array<Byte>)
      requires Valid()
      modifies this`readIndex
      ensures Valid()
      ensures current == dataBuffers[old(readIndex)]
      ensures readIndex == (old(readIndex) + 1) % numberOfBuffers
    {
      current := dataBuffers[readIndex];
      readIndex := UInt32(readIndex + 1) % numberOfBuffers;
    }
  }

  /** A new buffer filled from the file, where the window is inside both. */
  method LoadBuffer(file: seq<Byte>, size: nat, totalBytesRead: nat) returns (buffer: array<Byte>, read: int)
    requires 0 < size <= |file| && !PassesEnd(|file|, size)
    requires UInt32(totalBytesRead) + ReadLength(|file|, size) <= |file|
    ensures fresh(buffer) && read == ReadLength(|file|, size)
    ensures HoldsWindow(buffer[..], file, UInt32(totalBytesRead), read, size)
  {
    buffer := new Byte[size];
    UInt32Shrinks(size);
    UInt32Shrinks(totalBytesRead);
    read := ReadFile(file, buffer, UInt32(size), UInt32(totalBytesRead));
    assert buffer[..][..read] == buffer[..read];
  }

  lemma NoOverrun(fileSize: nat, size: nat)
    requires !PassesEnd(fileSize, size)
    ensures ReadLength(fileSize, size) <= size
  {
  }

  lemma WindowInFile(i: nat, n: nat, size: nat, fileSize: nat)
    requires i < n && n * size <= fileSize && !PassesEnd(fileSize, size)
    ensures WindowStart(fileSize, size, i) + ReadLength(fileSize, size) <= fileSize
    ensures (i + 1) * ReadLength(fileSize, size) == i * ReadLength(fileSize, size) + ReadLength(fileSize, size)
    ensures size <= fileSize
  {
    var length := ReadLength(fileSize, size);
    MulMonotone(i + 1, n, length);
    MulMonotone(length, size, n);
    MulMonotone(1, n, size);
    DecrementFactor(i + 1, length);
    UInt32Shrinks(i * length);
  }

  lemma UInt32Shrinks(x: int)
    requires x >= 0
    ensures 0 <= UInt32(x) <= x
    ensures UInt32(x) < TWO32
  {
  }

  lemma WindowsFit(total: nat, size: nat, n: nat)
    requires size > 0 && n == UInt32(total / size)
    ensures n * size <= total
  {
    DivModIdentity(total, size);
    UInt32Shrinks(total / size);
    MulMonotone(n, total / size, size);
  }

  // ----- What the buffers hold together -----

  function Concat(contents: seq<seq<Byte>>): (bytes: seq<Byte>) {
    if contents == [] then [] else Concat(contents[..|contents| - 1]) + contents[|contents| - 1]
  }

  /** When the buffers are the beginning of the file: neither the length nor the offset of
      a read is cut, or the length is cut to zero and the one buffer takes the whole file. */
  predicate Sound(fileSize: nat, size: nat, n: nat)
    requires n > 0
  {
    (size < TWO32 && (n - 1) * size < TWO32) || (size % TWO32 == 0 && size == fileSize)
  }

  /** For sizes that come out of initialization: loading stays inside its buffers and
      leaves the beginning of the file in them, whatever the file and the memory held
      before, if and only if that condition holds. */
  lemma BuffersAreFilePrefixIff(fileSize: nat, size: nat, n: nat)
    requires 0 < size && 0 < n && n * size <= fileSize
    ensures (&& !PassesEnd(fileSize, size)
             && forall file, contents ::
                  |file| == fileSize && |contents| == n && HoldsWindows(file, contents, size) ==>
                    Concat(contents) == file[..n * size])
        <==> Sound(fileSize, size, n)
  {
    if Sound(fileSize, size, n) {
      SoundNeverPasses(fileSize, size);
      forall file, contents | |file| == fileSize && |contents| == n && HoldsWindows(file, contents, size)
        ensures Concat(contents) == file[..n * size]
      {
        SoundIsPrefix(file, contents, size, n);
      }
    } else if !PassesEnd(fileSize, size) {
      var file, contents := WrongContents(fileSize, size, n);
      assert HoldsWindows(file, contents, size);
    }
  }

  /** A limit below 4 GiB, as the default is, keeps every file on the right side. */
  lemma SmallLimitIsSound(fileSize: nat, size: nat, n: nat, maximum: nat)
    requires 0 < size && 0 < n && n * size <= Min(maximum, fileSize) && maximum < TWO32
    ensures Sound(fileSize, size, n) && !PassesEnd(fileSize, size)
  {
    MulMonotone(1, n, size);
    DecrementFactor(n, size);
    UInt32Fits(size);
  }

  lemma SoundNeverPasses(fileSize: nat, size: nat)
    requires 0 < size && (size < TWO32 || (size % TWO32 == 0 && size == fileSize))
    ensures ReadLength(fileSize, size) == size
  {
  }

  lemma SoundIsPrefix(file: seq<Byte>, contents: seq<seq<Byte>>, size: nat, n: nat)
    requires 0 < size && 0 < n && n * size <= |file| && |contents| == n
    requires Sound(|file|, size, n) && HoldsWindows(file, contents, size)
    ensures Concat(contents) == file[..n * size]
  {
    hide ReadLength;
    SoundNeverPasses(|file|, size);
    if (n - 1) * size >= TWO32 {
      MulMonotone(2, n, size);
    }
    WindowsInRow(file, contents, size, n);
  }

  lemma {:induction false} WindowsInRow(file: seq<Byte>, contents: seq<seq<Byte>>, size: nat, n: nat)
    requires n <= |contents| && n * size <= |file| && ReadLength(|file|, size) == size
    requires HoldsWindows(file, contents, size) && (n > 0 ==> (n - 1) * size < TWO32)
    ensures Concat(contents[..n]) == file[..n * size]
    ensures n == |contents| ==> Concat(contents) == file[..n * size]
  {
    hide ReadLength, UInt32;
    assert n == |contents| ==> contents[..n] == contents;
    if n > 0 {
      DecrementFactor(n, size);
      MulNonNegative(n - 1, size);
      DecrementFactor(n - 1, size);
      WindowsInRow(file, contents, size, n - 1);
      UInt32Fits((n - 1) * size);
      assert HoldsWindow(contents[n - 1], file, (n - 1) * size, size, size);
      assert contents[n - 1] == contents[n - 1][..size];
      assert contents[..n][..n - 1] == contents[..n - 1];
    }
  }

  /** A file, and buffers that its loading can leave, that do not agree. */
  lemma WrongContents(fileSize: nat, size: nat, n: nat) returns (file: seq<Byte>, contents: seq<seq<Byte>>)
    requires 0 < size && 0 < n && n * size <= fileSize
    requires !Sound(fileSize, size, n) && !PassesEnd(fileSize, size)
    ensures |file| == fileSize && |contents| == n && HoldsWindows(file, contents, size)
    ensures Concat(contents) != file[..n * size]
  {
    if size < TWO32 {
      file, contents := LateWindowWraps(fileSize, size, n);
    } else {
      file, contents := LongBufferStaysUnread(fileSize, size, n);
    }
  }

  /** A buffer of more than 4 GiB is read only in part. */
  lemma LongBufferStaysUnread(fileSize: nat, size: nat, n: nat) returns (file: seq<Byte>, contents: seq<seq<Byte>>)
    requires 0 < n && TWO32 <= size && n * size <= fileSize
    requires !Sound(fileSize, size, n) && !PassesEnd(fileSize, size)
    ensures |file| == fileSize && |contents| == n && HoldsWindows(file, contents, size)
    ensures Concat(contents) != file[..n * size]
  {
    MulMonotone(1, n, size);
    UInt32Shrinks(size);
    var length := ReadLength(fileSize, size);
    assert length < size;
    file := seq(fileSize, _ => 0);
    var content: seq<Byte> := seq(size, i => if i < length then 0 else 1);
    contents := seq(n, _ => content);
    forall k | 0 <= k < n
      ensures HoldsWindow(contents[k], file, WindowStart(fileSize, size, k), length, size)
    {
      WindowInFile(k, n, size, fileSize);
    }
    FirstContent(contents);
    assert Concat(contents)[..size][length] == 1 && file[..n * size][length] == 0;
  }

  lemma {:induction false} FirstContent(contents: seq<seq<Byte>>)
    requires contents != []
    ensures contents[0] <= Concat(contents)
  {
    if |contents| > 1 {
      FirstContent(contents[..|contents| - 1]);
    } else {
      assert Concat(contents[..0]) == [];
    }
  }

  /** A window whose offset is cut reads an earlier part of the file. */
  lemma LateWindowWraps(fileSize: nat, size: nat, n: nat) returns (file: seq<Byte>, contents: seq<seq<Byte>>)
    requires 0 < size < TWO32 && 0 < n && n * size <= fileSize && (n - 1) * size >= TWO32
    ensures |file| == fileSize && |contents| == n && HoldsWindows(file, contents, size)
    ensures Concat(contents) != file[..n * size]
  {
    var at := (n - 1) * size;
    DecrementFactor(n, size);
    SoundNeverPasses(fileSize, size);
    file := seq(fileSize, i => if i == at then 1 else 0);
    contents := Windows(file, size, n);
    ContentsLength(contents[..n - 1], size);
    UInt32Shrinks(at);
    assert WindowStart(fileSize, size, n - 1) < at;
    assert Concat(contents)[at] == contents[n - 1][0] == 0;
    assert file[..n * size][at] == 1;
  }

  /** The windows themselves, where reads are not cut. */
  lemma Windows(file: seq<Byte>, size: nat, n: nat) returns (contents: seq<seq<Byte>>)
    requires n * size <= |file| && ReadLength(|file|, size) == size
    ensures |contents| == n && HoldsWindows(file, contents, size)
    ensures forall k :: 0 <= k < n ==> |contents[k]| == size
  {
    forall k | 0 <= k < n
      ensures WindowStart(|file|, size, k) + size <= |file|
    {
      WindowInFile(k, n, size, |file|);
    }
    contents := seq(n, k requires 0 <= k < n =>
      var start := WindowStart(|file|, size, k); file[start..start + size]);
  }

  lemma {:induction false} ContentsLength(contents: seq<seq<Byte>>, size: nat)
    requires forall k :: 0 <= k < |contents| ==> |contents[k]| == size
    ensures |Concat(contents)| == |contents| * size
  {
    if contents != [] {
      ContentsLength(contents[..|contents| - 1], size);
      DecrementFactor(|contents|, size);
    }
  }

  // ----- The buffers that samples carry -----

  /** One buffer is fetched before the loop and one for every sample, so data sample `k`
      carries buffer `(k + 1) % n`. */
  method PublishRun(loader: Loader, numIter: nat) returns (carried: seq<array<Byte>>)
    requires loader.Valid() && loader.readIndex == 0
    modifies loader`readIndex
    ensures |carried| == numIter
    ensures forall k :: 0 <= k < numIter ==>
              carried[k] == loader.dataBuffers[(k + 1) % loader.numberOfBuffers]
  {
    var data := loader.GetNextBuffer();
    carried := [];
    var loop := 0;
    while loop < numIter
      invariant 0 <= loop == |carried| <= numIter
      invariant loader.Valid() && loader.readIndex == (loop + 1) % loader.numberOfBuffers
      invariant forall k :: 0 <= k < loop ==>
                  carried[k] == loader.dataBuffers[(k + 1) % loader.numberOfBuffers]
    {
      data := loader.GetNextBuffer();
      carried := carried + [data];
      ModSuccessor(loop + 1, loader.numberOfBuffers);
      loop := loop + 1;
    }
  }
}
