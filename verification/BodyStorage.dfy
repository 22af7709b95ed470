/** The two request-body storages, in memory and on disk: what their operations
    answer, that the two kinds answer alike, and that both ways of creating one
    from a reader keep exactly the body. */
module BodyStorage {
  import opened Bytes
  import DiskCache
  import Files

  datatype Op =
    | Read(count: nat)
    | Seek(offset: int, whence: Files.Whence)
    | Contents
    | Close

  datatype Answer =
    | Data(bytes: seq<Byte>)
    | Eof
    | At(pos: int)
    | Done
    | StorageClosed
    | BadSeek

  /** A body with a cursor, which may lie beyond the end. */
  datatype Body = Body(data: seq<Byte>, pos: nat, closed: bool)

  datatype Step = Step(body: Body, answer: Answer)

  // ----- What the operations do, on values -----

  function Available(b: Body, count: nat): (bytes: seq<Byte>) {
    Files.Available(b.data, b.pos, count)
  }

  function SeekOn(b: Body, offset: int, whence: Files.Whence): (s: Step) {
    var target := Files.Target(|b.data|, b.pos, offset, whence);
    if target < 0 then Step(b, BadSeek) else Step(b.(pos := target), At(target))
  }

  /** A reader over a byte slice reports the end even for an empty read. */
  function MemoryStep(b: Body, op: Op): (s: Step) {
    if op.Close? then Step(b.(closed := true), Done)
    else if b.closed then Step(b, StorageClosed)
    else match op
      case Read(count) =>
        if b.pos >= |b.data| then Step(b, Eof)
        else Step(b.(pos := b.pos + |Available(b, count)|), Data(Available(b, count)))
      case Seek(offset, whence) => SeekOn(b, offset, whence)
      case Contents => Step(b, Data(b.data))
      case Close => Step(b, Done)
  }

  /** A file answers an empty read with no bytes and no error, wherever the cursor is. */
  function DiskStep(b: Body, op: Op): (s: Step) {
    if op.Close? then Step(b.(closed := true), Done)
    else if b.closed then Step(b, StorageClosed)
    else match op
      case Read(count) =>
        if count > 0 && b.pos >= |b.data| then Step(b, Eof)
        else Step(b.(pos := b.pos + |Available(b, count)|), Data(Available(b, count)))
      case Seek(offset, whence) => SeekOn(b, offset, whence)
      case Contents => Step(b, Data(b.data))
      case Close => Step(b, Done)
  }

  // ----- The storages -----

  class MemoryStorage {
    const data: seq<Byte>
    var index: nat
    var closed: bool

    ghost function Model(): (b: Body)
      reads this
    {
      Body(data, index, closed)
    }

    constructor (data: seq<Byte>)
      ensures Model() == Body(data, 0, false)
    {
      this.data := data;
      index := 0;
      closed := false;
    }

    method Read(count: nat) returns (a: Answer)
      modifies this
      ensures Step(Model(), a) == MemoryStep(old(Model()), Op.Read(count))
    {
      if closed {
        return StorageClosed;
      }
      if index >= |data| {
        return Eof;
      }
      var n := if index + count <= |data| then count else |data| - index;
      a := Data(data[index..index + n]);
      assert a.bytes == Available(Model(), count);
      index := index + n;
    }

    method Seek(offset: int, whence: Files.Whence) returns (a: Answer)
      modifies this
      ensures Step(Model(), a) == MemoryStep(old(Model()), Op.Seek(offset, whence))
    {
      if closed {
        return StorageClosed;
      }
      var abs := match whence case Start => offset case Current => index + offset case End => |data| + offset;
      if abs < 0 {
        return BadSeek;
      }
      index := abs;
      a := At(abs);
    }

    method Bytes() returns (a: Answer)
      modifies this
      ensures Step(Model(), a) == MemoryStep(old(Model()), Contents)
    {
      if closed {
        return StorageClosed;
      }
      a := Data(data);
    }

    method Close()
      modifies this
      ensures Step(Model(), Done) == MemoryStep(old(Model()), Op.Close)
    {
      closed := true;
    }
  }

  class DiskStorage {
    const file: Files.File
    const size: nat
    var closed: bool

    ghost predicate Valid()
      reads this, file
    {
      size == |file.content|
    }

    ghost function Model(): (b: Body)
      reads this, file
    {
      Body(file.content, file.offset, closed)
    }

    constructor (data: seq<Byte>)
      ensures Valid() && fresh(file) && Model() == Body(data, 0, false)
    {
      file := new Files.File(data);
      size := |data|;
      closed := false;
    }

    method Read(count: nat) returns (a: Answer)
      requires Valid()
      modifies this, file
      ensures Valid() && Step(Model(), a) == DiskStep(old(Model()), Op.Read(count))
    {
      if closed {
        return StorageClosed;
      }
      var bytes, eof := file.Read(count);
      a := if eof then Eof else Data(bytes);
    }

    method Seek(offset: int, whence: Files.Whence) returns (a: Answer)
      requires Valid()
      modifies this, file
      ensures Valid() && Step(Model(), a) == DiskStep(old(Model()), Op.Seek(offset, whence))
    {
      if closed {
        return StorageClosed;
      }
      var ok := file.Seek(offset, whence);
      a := if ok then At(file.offset) else BadSeek;
    }

    /** Saves the cursor, reads the whole file from its start, restores the cursor. */
    method Bytes() returns (a: Answer)
      requires Valid()
      modifies this, file
      ensures Valid() && Step(Model(), a) == DiskStep(old(Model()), Contents)
    {
      if closed {
        return StorageClosed;
      }
      var ok := file.Seek(0, Files.Current);
      var currentPos := file.offset;
      ok := file.Seek(0, Files.Start);
      var data, _ := file.Read(size);
      assert data == file.content;
      ok := file.Seek(currentPos, Files.Start);
      a := Data(data);
    }

    method Close()
      requires Valid()
      modifies this
      ensures Valid() && Step(Model(), Done) == DiskStep(old(Model()), Op.Close)
    {
      closed := true;
    }
  }

  // ----- The two kinds agree -----

  datatype Trace = Trace(body: Body, answers: seq<Answer>)

  ghost function MemoryRun(b: Body, ops: seq<Op>): Trace
    decreases |ops|
  {
    if ops == [] then Trace(b, [])
    else
      var s := MemoryStep(b, ops[0]);
      var rest := MemoryRun(s.body, ops[1..]);
      Trace(rest.body, [s.answer] + rest.answers)
  }

  ghost function DiskRun(b: Body, ops: seq<Op>): Trace
    decreases |ops|
  {
    if ops == [] then Trace(b, [])
    else
      var s := DiskStep(b, ops[0]);
      var rest := DiskRun(s.body, ops[1..]);
      Trace(rest.body, [s.answer] + rest.answers)
  }

  /** Some operation of the run reads no bytes with the cursor at or past the end. */
  ghost predicate HasEmptyReadAtEnd(b: Body, ops: seq<Op>)
    decreases |ops|
  {
    ops != [] && (
      || (ops[0].Read? && ops[0].count == 0 && !b.closed && b.pos >= |b.data|)
      || HasEmptyReadAtEnd(MemoryStep(b, ops[0]).body, ops[1..]))
  }

  /** On every sequence of operations the two kinds end in the same state, and they
      give the same answers exactly when no empty read is made at the end of the body. */
  lemma {:induction false} KindsAgree(b: Body, ops: seq<Op>)
    ensures MemoryRun(b, ops).body == DiskRun(b, ops).body
    ensures MemoryRun(b, ops).answers == DiskRun(b, ops).answers <==> !HasEmptyReadAtEnd(b, ops)
    decreases |ops|
  {
    if ops != [] {
      KindsAgree(MemoryStep(b, ops[0]).body, ops[1..]);
      var m, d := MemoryStep(b, ops[0]), DiskStep(b, ops[0]);
      assert m.body == d.body;
      var rm, rd := MemoryRun(m.body, ops[1..]).answers, DiskRun(d.body, ops[1..]).answers;
      assert ([m.answer] + rm)[0] == m.answer && ([d.answer] + rd)[0] == d.answer;
      assert ([m.answer] + rm)[1..] == rm && ([d.answer] + rd)[1..] == rd;
    }
  }

  lemma {:induction false} NoEmptyReads(b: Body, ops: seq<Op>)
    requires forall i :: 0 <= i < |ops| && ops[i].Read? ==> ops[i].count > 0
    ensures !HasEmptyReadAtEnd(b, ops)
    decreases |ops|
  {
    if ops != [] {
      forall i | 0 <= i < |ops[1..]| && ops[1..][i].Read?
        ensures ops[1..][i].count > 0
      {
        assert ops[1..][i] == ops[i + 1];
      }
      NoEmptyReads(MemoryStep(b, ops[0]).body, ops[1..]);
    }
  }

  /** In particular they agree on every run of non-empty reads, seeks, Bytes and closes. */
  lemma {:induction false} NonEmptyReadsAgree(b: Body, ops: seq<Op>)
    requires forall i :: 0 <= i < |ops| && ops[i].Read? ==> ops[i].count > 0
    ensures MemoryRun(b, ops) == DiskRun(b, ops)
  {
    KindsAgree(b, ops);
    NoEmptyReads(b, ops);
  }

  // ----- What a caller gets -----

  function Min(a: int, b: int): (m: int) {
    if a <= b then a else b
  }

  /** Both kinds answer a non-empty read of an open body with the next bytes, as many as were
      asked for or as are left, and move on by them; at the end they say so and stay. */
  lemma ReadAnswers(b: Body, count: nat)
    requires !b.closed && count > 0
    ensures MemoryStep(b, Op.Read(count)) == DiskStep(b, Op.Read(count))
    ensures var s, n := MemoryStep(b, Op.Read(count)), Min(count, |b.data| - b.pos);
            if b.pos < |b.data|
            then s.answer == Data(b.data[b.pos..b.pos + n]) && s.body == Body(b.data, b.pos + n, false)
            else s.answer == Eof && s.body == b
  {
  }

  /** Both kinds seek from the start, the cursor or the end, also beyond the end, and refuse
      a target before the start without moving. */
  lemma SeekAnswers(b: Body, offset: int)
    requires !b.closed
    ensures MemoryStep(b, Op.Seek(offset, Files.Start)) == DiskStep(b, Op.Seek(offset, Files.Start))
         == if offset >= 0 then Step(Body(b.data, offset, false), At(offset)) else Step(b, BadSeek)
    ensures MemoryStep(b, Op.Seek(offset, Files.Current)) == DiskStep(b, Op.Seek(offset, Files.Current))
         == if b.pos + offset >= 0 then Step(Body(b.data, b.pos + offset, false), At(b.pos + offset)) else Step(b, BadSeek)
    ensures MemoryStep(b, Op.Seek(offset, Files.End)) == DiskStep(b, Op.Seek(offset, Files.End))
         == if |b.data| + offset >= 0 then Step(Body(b.data, |b.data| + offset, false), At(|b.data| + offset)) else Step(b, BadSeek)
  {
  }

  /** Both kinds return the whole body wherever the cursor is and leave it there; once closed
      they refuse everything, and closing again changes nothing. */
  lemma ContentsAndClose(b: Body, op: Op)
    ensures !b.closed ==> MemoryStep(b, Contents) == DiskStep(b, Contents) == Step(b, Data(b.data))
    ensures MemoryStep(b, Op.Close) == DiskStep(b, Op.Close) == Step(Body(b.data, b.pos, true), Done)
    ensures b.closed && !op.Close? ==> MemoryStep(b, op) == DiskStep(b, op) == Step(b, StorageClosed)
  {
  }

  /** The bytes among some answers, one after the other. */
  ghost function Collected(answers: seq<Answer>): seq<Byte>
  {
    if answers == [] then []
    else (if answers[0].Data? then answers[0].bytes else []) + Collected(answers[1..])
  }

  lemma CollectedCons(a: Answer, rest: seq<Answer>)
    ensures Collected([a] + rest) == (if a.Data? then a.bytes else []) + Collected(rest)
    ensures Eof in [a] + rest <==> a == Eof || Eof in rest
  {
    assert ([a] + rest)[1..] == rest;
  }

  lemma Adjoining(data: seq<Byte>, i: nat, j: nat, k: nat)
    requires i <= j <= k <= |data|
    ensures data[i..j] + data[j..k] == data[i..k]
  {
  }

  ghost predicate NonEmptyReads(ops: seq<Op>) {
    forall i :: 0 <= i < |ops| ==> ops[i].Read? && ops[i].count > 0
  }

  /** A run of non-empty reads collects what lies between where it began and where it ended;
      the end has been reported if and only if there is nothing left and more was asked. */
  lemma {:induction false} ReadsCollect(b: Body, ops: seq<Op>)
    requires !b.closed && b.pos <= |b.data| && NonEmptyReads(ops)
    ensures var t := MemoryRun(b, ops);
            && t.body.data == b.data && b.pos <= t.body.pos <= |b.data|
            && Collected(t.answers) == b.data[b.pos..t.body.pos]
            && (Eof in t.answers ==> t.body.pos == |b.data|)
            && (Eof !in t.answers ==> t.body.pos >= b.pos + |ops|)
    decreases |ops|
  {
    hide MemoryStep, DiskStep;
    if ops != [] {
      ReadAnswers(b, ops[0].count);
      var s := MemoryStep(b, ops[0]);
      ReadsCollect(s.body, ops[1..]);
      var rest := MemoryRun(s.body, ops[1..]);
      CollectedCons(s.answer, rest.answers);
      if s.answer.Data? { Adjoining(b.data, b.pos, s.body.pos, rest.body.pos); }
    }
  }

  /** Reading a body through, with buffers of any positive sizes, gives exactly the body up to
      the end of data, from memory and from disk alike; more reads than bytes reach the end. */
  lemma ReadingGivesBody(data: seq<Byte>, ops: seq<Op>)
    requires NonEmptyReads(ops)
    ensures DiskRun(Body(data, 0, false), ops) == MemoryRun(Body(data, 0, false), ops)
    ensures var answers := MemoryRun(Body(data, 0, false), ops).answers;
            (Eof in answers ==> Collected(answers) == data) && (|ops| > |data| ==> Eof in answers)
  {
    ReadsCollect(Body(data, 0, false), ops);
    NonEmptyReadsAgree(Body(data, 0, false), ops);
  }

  // ----- Creating a storage from a reader -----

  /** What a create call gets from its surroundings: the disk cache settings, and the usage
      counter as read by each check. */
  datatype Cache = Cache(config: DiskCache.Config, usage: int)

  datatype Created = Stored(disk: bool, data: seq<Byte>) | TooLarge | DiskFailed

  /** io.LimitReader: at most `limit` bytes, and none when the limit is not positive. */
  function Limited(body: seq<Byte>, limit: int): (read: seq<Byte>) {
    if limit <= 0 then [] else if limit < |body| then body[..limit] else body
  }

  function CreateFromBytes(c: Cache, data: seq<Byte>, diskOk: bool): (r: Created)
    ensures r.Stored? && r.data == data
  {
    if c.config.enabled && |data| >= c.config.threshold && DiskCache.Available(c.config, c.usage, |data|) && diskOk then Stored(true, data)
    else Stored(false, data)
  }

  /** `later` is the cache as the second check sees it; `diskOk` says whether file
      operations succeed. */
  function CreateFromReader(c: Cache, later: Cache, body: seq<Byte>, contentLength: int, maxBytes: int, diskOk: bool): (r: Created) {
    var read := Limited(body, Wrap64(maxBytes + 1));
    if c.config.enabled && contentLength > 0 && contentLength >= c.config.threshold
       && DiskCache.Available(c.config, c.usage, contentLength) then
      if !diskOk then DiskFailed
      else if |read| > maxBytes then TooLarge
      else Stored(true, read)
    else if |read| > maxBytes then TooLarge
    else CreateFromBytes(later, read, diskOk)
  }

  lemma WrapIdentity(x: int)
    requires -TWO_63 <= x < TWO_63
    ensures Wrap64(x) == x
  {
    if x < 0 {
      assert x % TWO_64 == x + TWO_64;
    } else {
      assert x % TWO_64 == x;
    }
  }

  /** A body of known bytes goes to disk exactly when the cache is on, the body is not below
      the threshold, it fits beside what is there, and the file can be written. */
  lemma BytesOnDiskIff(c: Cache, data: seq<Byte>, diskOk: bool)
    ensures CreateFromBytes(c, data, diskOk) == Stored(true, data) <==>
              c.config.enabled && |data| >= c.config.threshold && c.usage + |data| <= c.config.limit && diskOk
  {
  }

  /** A streamed body goes straight to disk exactly when the cache is on and its declared
      length is known, not below the threshold and fits; then a file error is an error.
      Otherwise it is read first and stored like known bytes. */
  lemma StreamRoute(c: Cache, later: Cache, body: seq<Byte>, contentLength: int, maxBytes: int, diskOk: bool)
    requires |body| <= maxBytes < MAX_INT64
    ensures var straight := c.config.enabled && contentLength > 0 && contentLength >= c.config.threshold
                            && c.usage + contentLength <= c.config.limit;
            CreateFromReader(c, later, body, contentLength, maxBytes, diskOk)
            == if !straight then CreateFromBytes(later, body, diskOk) else if diskOk then Stored(true, body) else DiskFailed
  {
    WrapIdentity(maxBytes + 1);
  }

  /** What both routes should do: refuse a body longer than allowed, keep any other. */
  predicate KeepsBody(r: Created, body: seq<Byte>, maxBytes: int) {
    if |body| > maxBytes then r == TooLarge else r.Stored? && r.data == body
  }

  /** With working files, every route refuses exactly the bodies longer than `maxBytes` and
      keeps the others byte for byte, except that for the largest int64 the limit wraps
      around and every non-empty body is silently stored as empty. */
  lemma CreateKeepsBodyIff(c: Cache, later: Cache, body: seq<Byte>, contentLength: int, maxBytes: int)
    requires -TWO_63 <= maxBytes <= MAX_INT64 && |body| <= MAX_INT64
    ensures KeepsBody(CreateFromReader(c, later, body, contentLength, maxBytes, true), body, maxBytes)
            <==> (maxBytes < MAX_INT64 || body == [])
  {
    if maxBytes == MAX_INT64 {
      assert Wrap64(maxBytes + 1) == -TWO_63;
    } else {
      assert Wrap64(maxBytes + 1) == maxBytes + 1 by { WrapIdentity(maxBytes + 1); }
      if 0 <= maxBytes < |body| {
        assert |body[..maxBytes + 1]| == maxBytes + 1;
      }
    }
  }

  /** The reader route and the bytes route store the same body, whichever medium each picks. */
  lemma RoutesStoreSameBody(c: Cache, later: Cache, other: Cache, body: seq<Byte>, contentLength: int, maxBytes: int, diskOk: bool)
    requires |body| <= maxBytes < MAX_INT64
    ensures CreateFromBytes(other, body, diskOk).data == body
    ensures var r := CreateFromReader(c, later, body, contentLength, maxBytes, diskOk);
            r == DiskFailed || (r.Stored? && r.data == body)
  {
    WrapIdentity(maxBytes + 1);
  }
}
