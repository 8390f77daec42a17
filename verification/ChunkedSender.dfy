// ArraySender and FileSender (ChunkedDataSender.cpp), over a script of what send() answers.

module ChunkedSenders {
  import opened Prelude

  const CHUNK_SIZE := 4096

  // What send() does with a chunk: take at most n bytes of it, refuse with EAGAIN, or fail otherwise.
  datatype Answer = Took(n: nat) | WouldBlock | Broken

  function Min(x: nat, y: nat): nat { if x < y then x else y }

  // ----- ArraySender::send_next_chunk

  datatype ArrayState = ArrayState(loc: nat, wire: seq<byte>, exited: bool)

  function ArrayStep(data: seq<byte>, s: ArrayState, a: Answer): ArrayState
    requires s.loc <= |data|
  {
    var chunk := Min(|data| - s.loc, CHUNK_SIZE);
    if s.exited || chunk == 0 then s
    else if a.Took? && Min(a.n, chunk) != 0 then
      var k := Min(a.n, chunk);
      s.(loc := s.loc + k, wire := s.wire + data[s.loc..s.loc + k])
    else if a.WouldBlock? then s
    else s.(exited := true)
  }

  // ----- FileSender::send_next_chunk
  //
  // `failed` is the stream's failbit: a read that comes up short sets it, and from then on reads get nothing
  // and seeks do nothing.

  datatype FileState = FileState(position: nat, failed: bool, bytesSent: nat, wire: seq<byte>, exited: bool)

  function ReadCount(data: seq<byte>, s: FileState, wanted: nat): nat {
    if s.failed || |data| <= s.position then 0 else Min(wanted, |data| - s.position)
  }

  function FileStep(data: seq<byte>, s: FileState, a: Answer): FileState
    requires s.bytesSent <= |data|
  {
    var chunk := Min(|data| - s.bytesSent, CHUNK_SIZE);
    if s.exited || chunk == 0 then s
    else
      var count := ReadCount(data, s, chunk);
      var failed := s.failed || count < chunk;
      if !a.Took? then
        // "rewind": the offset has the wrong sign
        s.(failed := failed, position := s.position + if failed then count else 2 * count)
      else if Min(a.n, count) == 0 then s.(failed := failed, position := s.position + count, exited := true)
      else
        var k := Min(a.n, count);
        s.(failed := failed, position := s.position + if failed then count else k,
           bytesSent := s.bytesSent + k, wire := s.wire + data[s.position..s.position + k])
  }

  class ArraySender {
    const data: seq<byte>
    var currLoc: nat
    var exited: bool
    ghost var wire: seq<byte>      // what the socket has taken

    ghost function Model(): ArrayState
      reads this
    { ArrayState(currLoc, wire, exited) }

    constructor (arrayToSend: seq<byte>)
      ensures data == arrayToSend && Model() == ArrayState(0, [], false)
    { data, currLoc, exited, wire := arrayToSend, 0, false, []; }

    // The result of send() is the smaller of the answer and the chunk; -1 stands for EAGAIN.
    method SendNextChunk(a: Answer) returns (r: int)
      requires currLoc <= |data| && !exited
      modifies this
      ensures Model() == ArrayStep(data, old(Model()), a) && currLoc <= |data|
      ensures !exited && r >= 0 ==>
        currLoc == old(currLoc) + r && wire == old(wire) + data[old(currLoc)..currLoc]
      ensures !exited && r < 0 ==> r == -1 && a.WouldBlock? && Model() == old(Model())
    {
      var remaining := |data| - currLoc;
      var chunk := Min(remaining, CHUNK_SIZE);
      if chunk == 0 { return 0; }
      if a.Took? && Min(a.n, chunk) > 0 {
        r := Min(a.n, chunk);
        wire := wire + data[currLoc..currLoc + r];
        currLoc := currLoc + r;
      } else if a.WouldBlock? {
        r := -1;
      } else {
        exited := true;
        r := 0;
      }
    }
  }

  class FileSender {
    const file: seq<byte>
    var position: nat
    var failbit: bool
    var bytesSent: nat
    var exited: bool
    ghost var wire: seq<byte>

    ghost function Model(): FileState
      reads this
    { FileState(position, failbit, bytesSent, wire, exited) }

    constructor (contents: seq<byte>)
      ensures file == contents && Model() == FileState(0, false, 0, [], false)
    { file, position, failbit, bytesSent, exited, wire := contents, 0, false, 0, false, []; }

    method Read(wanted: nat) returns (got: seq<byte>)
      modifies this`position, this`failbit
      ensures |got| == ReadCount(file, old(Model()), wanted) && failbit == (old(failbit) || |got| < wanted)
      ensures position == old(position) + |got|
      ensures got != [] ==> position <= |file| && got == file[old(position)..position]
    {
      if failbit || |file| <= position {
        failbit := failbit || 0 < wanted;
        return [];
      }
      var count := Min(wanted, |file| - position);
      got := file[position..position + count];
      position := position + count;
      failbit := count < wanted;
    }

    method Seek(offset: int)
      requires 0 <= position + offset
      modifies this`position
      ensures position == old(position) + if failbit then 0 else offset
    {
      if !failbit { position := position + offset; }
    }

    method SendNextChunk(a: Answer) returns (r: int)
      requires bytesSent <= |file| && !exited
      modifies this
      ensures Model() == FileStep(file, old(Model()), a) && bytesSent <= |file|
      ensures !exited ==> r == if a.Took? || old(bytesSent) == |file| then bytesSent - old(bytesSent) else -1
    {
      var remaining := |file| - bytesSent;
      var chunk := Min(remaining, CHUNK_SIZE);
      if chunk == 0 { return 0; }
      var fileData := Read(chunk);
      if a.Took? && Min(a.n, |fileData|) > 0 {
        r := Min(a.n, |fileData|);
        wire := wire + fileData[..r];
        bytesSent := bytesSent + r;
        if r < |fileData| { Seek(r - |fileData|); }
      } else if !a.Took? {
        Seek(|fileData|);
        r := -1;
      } else {
        exited := true;
        r := 0;
      }
    }
  }

  // ----- whole schedules

  function ArrayRun(data: seq<byte>, s: ArrayState, schedule: seq<Answer>): ArrayState
    requires s.loc <= |data|
    decreases |schedule|
  { if schedule == [] then s else ArrayRun(data, ArrayStep(data, s, schedule[0]), schedule[1..]) }

  function FileRun(data: seq<byte>, s: FileState, schedule: seq<Answer>): FileState
    requires s.bytesSent <= |data|
    decreases |schedule|
  { if schedule == [] then s else FileRun(data, FileStep(data, s, schedule[0]), schedule[1..]) }

  ghost predicate Progressing(schedule: seq<Answer>) {
    forall i :: 0 <= i < |schedule| ==> schedule[i].Took? && 0 < schedule[i].n
  }

  // What the socket is ready to take, at most a chunk at a time.
  function Room(schedule: seq<Answer>): nat
    decreases |schedule|
  {
    if schedule == [] then 0
    else (if schedule[0].Took? then Min(schedule[0].n, 4096) else 0) + Room(schedule[1..])
  }

  // The stream stands where the counter says, and the socket has a prefix of the file.
  ghost predicate Aligned(data: seq<byte>, s: FileState) {
    && !s.failed && !s.exited && s.position == s.bytesSent <= |data| && s.wire == data[..s.bytesSent]
  }

  // For every schedule of partial sends both senders have put the same bytes on the wire: as much of the data as
  // there was room for.
  lemma {:induction false} SendersAgree(data: seq<byte>, s: ArrayState, f: FileState, schedule: seq<Answer>)
    requires Progressing(schedule)
    requires s.loc <= |data| && s.wire == data[..s.loc] && !s.exited
    requires Aligned(data, f) && f.bytesSent == s.loc
    ensures var s', f' := ArrayRun(data, s, schedule), FileRun(data, f, schedule);
            && s'.wire == f'.wire && s'.loc == f'.bytesSent <= |data| && s'.wire == data[..s'.loc]
            && Aligned(data, f') && s'.loc == Min(|data|, s.loc + Room(schedule))
    decreases |schedule|
  {
    if schedule != [] {
      var s1, f1 := ArrayStep(data, s, schedule[0]), FileStep(data, f, schedule[0]);
      assert s1.wire == data[..s1.loc];
      SendersAgree(data, s1, f1, schedule[1..]);
    }
  }

  // ArraySender keeps this across EAGAIN.
  lemma {:induction false} ArraySurvivesEagain(data: seq<byte>, s: ArrayState, schedule: seq<Answer>)
    requires forall i :: 0 <= i < |schedule| ==> schedule[i].WouldBlock? || (schedule[i].Took? && 0 < schedule[i].n)
    requires s.loc <= |data| && s.wire == data[..s.loc] && !s.exited
    ensures var s' := ArrayRun(data, s, schedule);
            s'.loc == Min(|data|, s.loc + Room(schedule)) && s'.wire == data[..s'.loc] && !s'.exited
    decreases |schedule|
  {
    if schedule != [] {
      var s1 := ArrayStep(data, s, schedule[0]);
      assert s1.wire == data[..s1.loc];
      ArraySurvivesEagain(data, s1, schedule[1..]);
    }
  }

  // It gives up if and only if send() takes nothing or fails otherwise while there is something to send.
  lemma {:induction false} ArrayExitsIff(data: seq<byte>, s: ArrayState, schedule: seq<Answer>)
    requires s.loc <= |data| && !s.exited
    ensures ArrayRun(data, s, schedule).exited <==>
            exists i :: 0 <= i < |schedule| && (schedule[i].Broken? || schedule[i] == Took(0))
                        && ArrayRun(data, s, schedule[..i]).loc < |data|
    decreases |schedule|
  {
    if schedule != [] {
      var rest := schedule[1..];
      var s1 := ArrayStep(data, s, schedule[0]);
      assert schedule[..0] == [] && ArrayRun(data, s, []) == s;
      forall i | 0 <= i < |rest| ensures ArrayRun(data, s, schedule[..i + 1]) == ArrayRun(data, s1, rest[..i]) {
        assert schedule[..i + 1][1..] == rest[..i];
      }
      if s1.exited {
        ExitedForever(data, s1, rest);
      } else {
        ArrayExitsIff(data, s1, rest);
        if ArrayRun(data, s1, rest).exited {
          var i :| 0 <= i < |rest| && (rest[i].Broken? || rest[i] == Took(0))
                   && ArrayRun(data, s1, rest[..i]).loc < |data|;
          assert schedule[i + 1] == rest[i];
        }
        forall i | 0 <= i < |schedule| && (schedule[i].Broken? || schedule[i] == Took(0))
                   && ArrayRun(data, s, schedule[..i]).loc < |data|
          ensures ArrayRun(data, s1, rest).exited
        {
          assert i != 0 && rest[i - 1] == schedule[i];
        }
      }
    }
  }

  lemma {:induction false} ExitedForever(data: seq<byte>, s: ArrayState, schedule: seq<Answer>)
    requires s.loc <= |data| && s.exited
    ensures ArrayRun(data, s, schedule) == s
    decreases |schedule|
  {
    if schedule != [] { ExitedForever(data, s, schedule[1..]); }
  }

  // Once ahead of its counter, the stream stays ahead.
  lemma {:induction false} AheadForever(data: seq<byte>, f: FileState, schedule: seq<Answer>)
    requires f.bytesSent <= |data| && f.bytesSent < f.position
    ensures var f' := FileRun(data, f, schedule); f'.bytesSent < f'.position
    decreases |schedule|
  {
    if schedule != [] { AheadForever(data, FileStep(data, f, schedule[0]), schedule[1..]); }
  }

  // FileSender stays aligned with its file if and only if no send fails while there is something to send.
  lemma {:induction false} FileAlignedIff(data: seq<byte>, f: FileState, schedule: seq<Answer>)
    requires Aligned(data, f)
    requires forall i :: 0 <= i < |schedule| ==> !schedule[i].Took? || 0 < schedule[i].n
    ensures Aligned(data, FileRun(data, f, schedule)) <==>
            forall i :: 0 <= i < |schedule| && !schedule[i].Took?
                        ==> FileRun(data, f, schedule[..i]).bytesSent == |data|
    decreases |schedule|
  {
    if schedule != [] {
      var a, rest := schedule[0], schedule[1..];
      var f1 := FileStep(data, f, a);
      forall i | 0 <= i < |rest| ensures FileRun(data, f, schedule[..i + 1]) == FileRun(data, f1, rest[..i]) {
        assert schedule[..i + 1][1..] == rest[..i];
      }
      assert schedule[..0] == [] && FileRun(data, f, []) == f;
      if !a.Took? && f.bytesSent != |data| {
        AheadForever(data, f1, rest);
      } else {
        assert f1.wire == data[..f1.bytesSent];
        FileAlignedIff(data, f1, rest);
        assert forall i :: 0 <= i < |rest| ==> schedule[i + 1] == rest[i];
      }
    }
  }

  // ----- what becomes of a FileSender after EAGAIN

  function Answered(a: Answer, k: nat): seq<Answer> { seq(k, i => a) }

  // Each EAGAIN leaves the stream two chunks ahead of where it was.
  lemma {:induction false} EagainSkipsChunks(data: seq<byte>, f: FileState, k: nat)
    requires !f.failed && !f.exited && f.bytesSent <= |data|
    requires f.position + 2 * k * Min(|data| - f.bytesSent, CHUNK_SIZE) <= |data|
    ensures FileRun(data, f, Answered(WouldBlock, k))
            == f.(position := f.position + 2 * k * Min(|data| - f.bytesSent, CHUNK_SIZE))
    decreases k
  {
    if k != 0 {
      var chunk := Min(|data| - f.bytesSent, CHUNK_SIZE);
      assert 2 * k * chunk == 2 * chunk + 2 * (k - 1) * chunk;
      assert Answered(WouldBlock, k)[1..] == Answered(WouldBlock, k - 1);
      var f1 := FileStep(data, f, WouldBlock);
      assert 0 <= (k - 1) * chunk;
      assert f1 == f.(position := f.position + 2 * chunk);
      EagainSkipsChunks(data, f1, k - 1);
    }
  }

  // From wherever the stream stands, positive partial sends put what follows there on the wire.
  lemma {:induction false} SendsFromPosition(data: seq<byte>, f: FileState, schedule: seq<Answer>)
    requires Progressing(schedule) && f.bytesSent <= f.position && f.position <= |data|
    ensures var f' := FileRun(data, f, schedule);
            var m := f'.bytesSent - f.bytesSent;
            0 <= m && f.position + m <= |data| && f'.wire == f.wire + data[f.position..f.position + m]
    decreases |schedule|
  {
    assert f.wire + data[f.position..f.position] == f.wire;
    if schedule != [] {
      var f1 := FileStep(data, f, schedule[0]);
      var k := f1.bytesSent - f.bytesSent;
      if f1.failed || f1.exited {
        NothingMore(data, f1, schedule[1..]);
      } else {
        SendsFromPosition(data, f1, schedule[1..]);
        var m := FileRun(data, f, schedule).bytesSent - f.bytesSent;
        assert data[f.position..f.position + k] + data[f.position + k..f.position + m]
               == data[f.position..f.position + m];
      }
    }
  }

  // A read that comes up short stops at the end of the file for good, and nothing more is sent.
  lemma {:induction false} NothingMore(data: seq<byte>, f: FileState, schedule: seq<Answer>)
    requires f.bytesSent <= |data| && (f.failed || f.exited)
    ensures var f' := FileRun(data, f, schedule);
            f'.wire == f.wire && f'.bytesSent == f.bytesSent && f'.position == f.position
    decreases |schedule|
  {
    if schedule != [] { NothingMore(data, FileStep(data, f, schedule[0]), schedule[1..]); }
  }

  lemma ShortReadStopsAtEnd(data: seq<byte>, f: FileState, a: Answer)
    requires !f.failed && !f.exited && f.bytesSent < |data|
    requires |data| < f.position + Min(|data| - f.bytesSent, 4096)
    ensures var f' := FileStep(data, f, a);
            && f'.failed && f'.position == (if f.position < |data| then |data| else f.position)
            && (f'.exited <==> a.Took? && (a.n == 0 || |data| <= f.position))
  {
  }

  function Sends(schedule: seq<Answer>): nat
    decreases |schedule|
  { if schedule == [] then 0 else (if schedule[0].Took? then 1 else 0) + Sends(schedule[1..]) }

  // Once ahead, it never gets the whole file out, whatever send() answers, and after enough calls that are not
  // EAGAIN it has given up.
  lemma {:induction false} EagainIsFatal(data: seq<byte>, f: FileState, schedule: seq<Answer>)
    requires f.bytesSent < |data| && f.bytesSent < f.position
    ensures var f' := FileRun(data, f, schedule);
            f'.bytesSent < |data| && (|data| - f.bytesSent <= Sends(schedule) ==> f'.exited)
    decreases |schedule|
  {
    if schedule != [] {
      var f1 := FileStep(data, f, schedule[0]);
      EagainIsFatal(data, f1, schedule[1..]);
      if f.exited { StaysExited(data, f, schedule); } else if f1.exited { StaysExited(data, f1, schedule[1..]); }
    }
  }

  lemma {:induction false} StaysExited(data: seq<byte>, f: FileState, schedule: seq<Answer>)
    requires f.bytesSent <= |data| && f.exited
    ensures FileRun(data, f, schedule) == f
    decreases |schedule|
  {
    if schedule != [] { StaysExited(data, f, schedule[1..]); }
  }
}
