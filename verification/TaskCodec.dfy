/**
 * The wire form of a task and the routing trailer behind it.
 *
 *   magic u32 | version u16 | reserved u16 | fingerprint u64 | name length u32 | name
 *   | argument count u32 | argument lengths, u64 each | argument bytes
 *   | routing magic u32 | tag | tag length u32            (version 2 only)
 */
module TaskCodec {
  import opened Wrappers
  import opened LittleEndian
  import opened TaskQueue

  const TASK_MAGIC := 0x4E434454
  const ROUTING_MAGIC := 0x4E43524F
  const MAX_PAYLOAD := 64 * 1024 * 1024
  const MAX_NAME := 256
  const MAX_TAG := 240

  type U64 = x: int | 0 <= x < TWO64

  datatype TaskEnvelope = TaskEnvelope(registryFp: U64, opId: Bytes, args: seq<Bytes>)

  // ---------------------------------------------------------------- encoding

  function Sum(lens: seq<nat>): nat {
    if lens == [] then 0 else lens[0] + Sum(lens[1..])
  }

  function Lengths(args: seq<Bytes>): (r: seq<nat>)
    ensures |r| == |args|
  {
    seq(|args|, k requires 0 <= k < |args| => |args[k]|)
  }

  function Table(lens: seq<nat>): (r: Bytes)
    ensures |r| == 8 * |lens|
  {
    if lens == [] then [] else Write(lens[0], 8) + Table(lens[1..])
  }

  function Joined(args: seq<Bytes>): (r: Bytes)
    ensures |r| == Sum(Lengths(args))
  {
    if args == [] then []
    else
      assert Lengths(args)[1..] == Lengths(args[1..]);
      args[0] + Joined(args[1..])
  }

  function Head(fp: nat, nameLength: nat): (r: Bytes)
    ensures |r| == 20
  {
    Write(TASK_MAGIC, 4) + Write(1, 2) + Write(0, 2) + Write(fp, 8) + Write(nameLength, 4)
  }

  function Framed(env: TaskEnvelope): (r: Bytes)
    ensures |r| == 24 + |env.opId| + 8 * |env.args| + Sum(Lengths(env.args))
  {
    Head(env.registryFp, |env.opId|) + env.opId
    + Write(|env.args|, 4) + Table(Lengths(env.args)) + Joined(env.args)
  }

  /** `encode_task` with a cap on the size. */
  function Encode(env: TaskEnvelope, maxBytes: nat): Result<Bytes> {
    if env.opId == [] || |env.opId| > MAX_NAME then Err(SyntaxError)
    else if |Framed(env)| > maxBytes then Err(OverflowError)
    else Ok(Framed(env))
  }

  lemma {:induction false} SumJoins(a: seq<nat>, b: seq<nat>)
    ensures Sum(a + b) == Sum(a) + Sum(b)
  {
    if a == [] {
      assert a + b == b;
    } else {
      assert (a + b)[1..] == a[1..] + b;
      SumJoins(a[1..], b);
    }
  }

  lemma {:induction false} TableJoins(a: seq<nat>, b: seq<nat>)
    ensures Table(a + b) == Table(a) + Table(b)
  {
    if a == [] {
      assert a + b == b;
    } else {
      assert (a + b)[1..] == a[1..] + b;
      TableJoins(a[1..], b);
    }
  }

  lemma {:induction false} JoinedJoins(a: seq<Bytes>, b: seq<Bytes>)
    ensures Joined(a + b) == Joined(a) + Joined(b)
  {
    if a == [] {
      assert a + b == b;
    } else {
      assert (a + b)[1..] == a[1..] + b;
      JoinedJoins(a[1..], b);
    }
  }

  lemma PrefixGrows(args: seq<Bytes>, i: nat)
    requires i < |args|
    ensures Sum(Lengths(args[..i + 1])) == Sum(Lengths(args[..i])) + |args[i]| <= Sum(Lengths(args))
    ensures Table(Lengths(args[..i + 1])) == Table(Lengths(args[..i])) + Write(|args[i]|, 8)
    ensures Joined(args[..i + 1]) == Joined(args[..i]) + args[i]
  {
    var lens := Lengths(args);
    assert Lengths(args[..i]) == lens[..i] && Lengths(args[..i + 1]) == lens[..i] + [|args[i]|];
    SumJoins(lens[..i], [|args[i]|]);
    SumJoins(lens[..i + 1], lens[i + 1..]);
    assert lens == lens[..i + 1] + lens[i + 1..] && lens[..i + 1] == lens[..i] + [|args[i]|];
    TableJoins(lens[..i], [|args[i]|]);
    assert Table([|args[i]|]) == Write(|args[i]|, 8) + Table([]);
    assert args[..i + 1] == args[..i] + [args[i]];
    JoinedJoins(args[..i], [args[i]]);
    assert Joined([args[i]]) == args[i] + Joined([]);
  }

  /** The size accumulation and the writes of `encode_task`, no sum ever passing the cap. */
  method EncodeTask(env: TaskEnvelope, maxBytes: nat) returns (r: Result<Bytes>)
    ensures r == Encode(env, maxBytes)
  {
    hide Table, Joined, Head, Sum, Write;
    if env.opId == [] || |env.opId| > MAX_NAME {
      return Err(SyntaxError);
    }
    var total := 24 + |env.opId|;
    if total > maxBytes || |env.args| > (maxBytes - total) / 8 {
      return Err(OverflowError);
    }
    total := total + |env.args| * 8;
    NoArguments();
    for i := 0 to |env.args|
      invariant total == 24 + |env.opId| + 8 * |env.args| + Sum(Lengths(env.args[..i])) <= maxBytes
    {
      PrefixGrows(env.args, i);
      if |env.args[i]| > maxBytes - total {
        return Err(OverflowError);
      }
      total := total + |env.args[i]|;
    }
    assert env.args[..|env.args|] == env.args;
    var out := Head(env.registryFp, |env.opId|) + env.opId + Write(|env.args|, 4);
    ghost var front := out;
    for i := 0 to |env.args|
      invariant out == front + Table(Lengths(env.args[..i]))
    {
      PrefixGrows(env.args, i);
      out := out + Write(|env.args[i]|, 8);
    }
    for i := 0 to |env.args|
      invariant out == front + Table(Lengths(env.args)) + Joined(env.args[..i])
    {
      PrefixGrows(env.args, i);
      out := out + env.args[i];
    }
    return Ok(out);
  }

  lemma NoArguments()
    ensures Lengths([]) == [] && Sum([]) == 0 && Table([]) == [] && Joined([]) == []
  {}

  // ---------------------------------------------------------------- decoding

  /** The characters a name may hold. */
  predicate CleanName(name: Bytes) {
    forall k :: 0 <= k < |name| ==> 0 < name[k] < 128
  }

  function ReadTable(bytes: Bytes, n: nat): (r: seq<nat>)
    requires |bytes| == 8 * n
    ensures |r| == n && forall k :: 0 <= k < n ==> r[k] < TWO64
  {
    Powers();
    if n == 0 then [] else [Read(bytes[..8])] + ReadTable(bytes[8..], n - 1)
  }

  function Cut(data: Bytes, lens: seq<nat>): (r: seq<Bytes>)
    requires |data| == Sum(lens)
    ensures |r| == |lens|
  {
    if lens == [] then [] else [data[..lens[0]]] + Cut(data[lens[0]..], lens[1..])
  }

  /** What follows the fixed header: the name, then the arguments. */
  function ParseArguments(rest: Bytes): Result<seq<Bytes>> {
    if |rest| < 4 then Err(SyntaxError)
    else
      var n := Read(rest[..4]);
      if |rest| < 4 + 8 * n then Err(SyntaxError)
      else
        var lens, data := ReadTable(rest[4..4 + 8 * n], n), rest[4 + 8 * n..];
        if Sum(lens) != |data| then Err(SyntaxError) else Ok(Cut(data, lens))
  }

  function ParseBody(body: Bytes): Result<TaskEnvelope>
    requires |body| >= 20
  {
    Powers();
    var fp, nameLength := Read(body[8..16]), Read(body[16..20]);
    if nameLength < 1 || nameLength > MAX_NAME || |body| < 24 + nameLength then Err(SyntaxError)
    else
      var name := body[20..20 + nameLength];
      if !CleanName(name) then Err(SyntaxError)
      else
        match ParseArguments(body[20 + nameLength..])
        case Err(error) => Err(error)
        case Ok(args) => Ok(TaskEnvelope(fp, name, args))
  }

  /** The length of the routing trailer, zero on version 1. */
  function TrailerLength(bytes: Bytes): (r: Result<nat>)
    ensures r.Ok? ==> |bytes| >= 20 && r.value <= |bytes| && (r.value == 0 || 9 <= r.value <= 8 + MAX_TAG)
  {
    if |bytes| < 20 || Read(bytes[..4]) != TASK_MAGIC then Err(SyntaxError)
    else if Read(bytes[4..6]) == 1 then Ok(0)
    else if Read(bytes[4..6]) != 2 then Err(SyntaxError)
    else
      var tagLength := Read(bytes[|bytes| - 4..]);
      if tagLength < 1 || tagLength > MAX_TAG then Err(SyntaxError)
      else if |bytes| < 8 + tagLength then Err(SyntaxError)
      else
        var at := |bytes| - (8 + tagLength);
        if Read(bytes[at..at + 4]) != ROUTING_MAGIC then Err(SyntaxError) else Ok(8 + tagLength)
  }

  /** `decode_task`. */
  function Decode(bytes: Bytes): Result<TaskEnvelope> {
    if |bytes| < 20 || |bytes| > MAX_PAYLOAD then Err(SyntaxError)
    else if Read(bytes[..4]) != TASK_MAGIC || Read(bytes[4..6]) !in {1, 2} then Err(SyntaxError)
    else if Read(bytes[4..6]) == 1 then ParseBody(bytes)
    else
      match TrailerLength(bytes)
      case Err(error) => Err(error)
      case Ok(trailer) =>
        if trailer == 0 || |bytes| - trailer < 20 then Err(SyntaxError)
        else ParseBody(bytes[..|bytes| - trailer])
  }

  lemma {:induction false} TableStep(bytes: Bytes, n: nat, i: nat)
    requires |bytes| == 8 * n && i < n
    ensures ReadTable(bytes, n)[i] == Read(bytes[8 * i..8 * i + 8])
    decreases i
  {
    hide Read;
    if i == 0 {
      assert bytes[8 * i..8 * i + 8] == bytes[..8];
    } else {
      TableStep(bytes[8..], n - 1, i - 1);
      var rest, at := bytes[8..], 8 * (i - 1);
      SliceOfRest(bytes, at);
      assert ReadTable(bytes, n)[i] == ReadTable(rest, n - 1)[i - 1] == Read(rest[at..at + 8]);
    }
  }

  lemma SliceOfRest(s: Bytes, at: nat)
    requires 8 + at + 8 <= |s|
    ensures s[8..][at..at + 8] == s[at + 8..at + 16]
  {
    var x, y := s[8..][at..at + 8], s[at + 8..at + 16];
    forall k | 0 <= k < 8 ensures x[k] == y[k] {
      assert x[k] == s[8..][at + k];
    }
    assert x == y;
  }

  lemma {:induction false} SumPrefix(lens: seq<nat>, i: nat)
    requires i < |lens|
    ensures Sum(lens[..i + 1]) == Sum(lens[..i]) + lens[i] <= Sum(lens)
  {
    SumJoins(lens[..i], [lens[i]]);
    assert lens[..i + 1] == lens[..i] + [lens[i]];
    assert Sum([lens[i]]) == lens[i] + Sum([]);
    SumJoins(lens[..i + 1], lens[i + 1..]);
    assert lens == lens[..i + 1] + lens[i + 1..];
  }

  /** The argument loops of `decode_task`: no declared length is ever added before it is known to fit. */
  method DecodeArguments(rest: Bytes) returns (r: Result<seq<Bytes>>)
    ensures r == ParseArguments(rest)
  {
    hide Read, ReadTable, Cut, Sum;
    if |rest| < 4 {
      return Err(SyntaxError);
    }
    var n := Read(rest[..4]);
    if |rest| < 4 + 8 * n {
      return Err(SyntaxError);
    }
    ghost var table := rest[4..4 + 8 * n];
    var lens: seq<nat> := [];
    for i := 0 to n
      invariant lens == ReadTable(table, n)[..i]
    {
      TableStep(table, n, i);
      var at := 4 + 8 * i;
      SliceOfSlice(rest, 4, 8 * n, 8 * i);
      lens := lens + [Read(rest[at..at + 8])];
    }
    assert lens == ReadTable(table, n);
    var data := rest[4 + 8 * n..];
    var ok := LengthsFill(lens, |data|);
    if !ok {
      return Err(SyntaxError);
    }
    var args := CutArguments(data, lens);
    return Ok(args);
  }

  lemma SliceOfSlice(s: Bytes, from: nat, n: nat, i: nat)
    requires from + n <= |s| && i + 8 <= n
    ensures s[from..from + n][i..i + 8] == s[from + i..from + i + 8]
  {
    var x, y := s[from..from + n][i..i + 8], s[from + i..from + i + 8];
    forall k | 0 <= k < 8 ensures x[k] == y[k] {
      assert x[k] == s[from..from + n][i + k];
    }
    assert x == y;
  }

  method LengthsFill(lens: seq<nat>, remaining: nat) returns (ok: bool)
    ensures ok <==> Sum(lens) == remaining
  {
    var consumed := 0;
    for i := 0 to |lens|
      invariant consumed == Sum(lens[..i]) <= remaining
    {
      SumPrefix(lens, i);
      if lens[i] > remaining - consumed {
        return false;
      }
      consumed := consumed + lens[i];
    }
    assert lens[..|lens|] == lens;
    return consumed == remaining;
  }

  method CutArguments(data: Bytes, lens: seq<nat>) returns (args: seq<Bytes>)
    requires |data| == Sum(lens)
    ensures args == Cut(data, lens)
  {
    args := [];
    var offset := 0;
    assert data[0..] == data && lens[0..] == lens;
    for i := 0 to |lens|
      invariant offset <= |data| && |data[offset..]| == Sum(lens[i..])
      invariant args + Cut(data[offset..], lens[i..]) == Cut(data, lens)
    {
      assert lens[i..][0] == lens[i] && lens[i..][1..] == lens[i + 1..];
      var next := offset + lens[i];
      assert data[offset..][..lens[i]] == data[offset..next] && data[offset..][lens[i]..] == data[next..];
      args := args + [data[offset..next]];
      offset := next;
    }
  }

  // ---------------------------------------------------------------- round trip

  lemma {:induction false} TableReads(lens: seq<nat>)
    requires forall k :: 0 <= k < |lens| ==> lens[k] < TWO64
    ensures ReadTable(Table(lens), |lens|) == lens
  {
    hide Write, Read;
    if lens != [] {
      Powers();
      ReadWritten(lens[0], 8);
      TableReads(lens[1..]);
      assert Table(lens)[..8] == Write(lens[0], 8) && Table(lens)[8..] == Table(lens[1..]);
    }
  }

  lemma {:induction false} TableWrites(bytes: Bytes, n: nat)
    requires |bytes| == 8 * n
    ensures Table(ReadTable(bytes, n)) == bytes
  {
    hide Write, Read;
    if n > 0 {
      WriteRead(bytes[..8]);
      TableWrites(bytes[8..], n - 1);
      assert ReadTable(bytes, n)[1..] == ReadTable(bytes[8..], n - 1);
      assert bytes[..8] + bytes[8..] == bytes;
    }
  }

  lemma {:induction false} JoinedIsCut(args: seq<Bytes>)
    ensures Cut(Joined(args), Lengths(args)) == args
  {
    if args != [] {
      JoinedIsCut(args[1..]);
      assert Lengths(args)[1..] == Lengths(args[1..]);
      assert Joined(args)[..|args[0]|] == args[0] && Joined(args)[|args[0]|..] == Joined(args[1..]);
    }
  }

  lemma {:induction false} CutIsJoined(data: Bytes, lens: seq<nat>)
    requires |data| == Sum(lens)
    ensures Lengths(Cut(data, lens)) == lens && Joined(Cut(data, lens)) == data
  {
    if lens != [] {
      var args := Cut(data, lens);
      CutIsJoined(data[lens[0]..], lens[1..]);
      assert args[1..] == Cut(data[lens[0]..], lens[1..]);
      assert Lengths(args) == [lens[0]] + Lengths(args[1..]);
      assert data[..lens[0]] + data[lens[0]..] == data;
    }
  }

  lemma ArgumentsRead(args: seq<Bytes>)
    requires |args| < TWO32 && forall k :: 0 <= k < |args| ==> |args[k]| < TWO64
    ensures ParseArguments(Write(|args|, 4) + Table(Lengths(args)) + Joined(args)) == Ok(args)
  {
    hide Write, Read, Table, ReadTable, Joined, Cut, Sum;
    var n, rest := |args|, Write(|args|, 4) + Table(Lengths(args)) + Joined(args);
    Powers();
    ReadWritten(n, 4);
    assert rest[..4] == Write(n, 4);
    assert rest[4..4 + 8 * n] == Table(Lengths(args)) && rest[4 + 8 * n..] == Joined(args);
    TableReads(Lengths(args));
    JoinedIsCut(args);
  }

  lemma ArgumentsWrite(rest: Bytes)
    requires ParseArguments(rest).Ok?
    ensures var args := ParseArguments(rest).value;
            rest == Write(|args|, 4) + Table(Lengths(args)) + Joined(args)
  {
    hide Write, Read, Table, ReadTable, Joined, Cut, Sum;
    var n := Read(rest[..4]);
    WriteRead(rest[..4]);
    TableWrites(rest[4..4 + 8 * n], n);
    CutIsJoined(rest[4 + 8 * n..], ReadTable(rest[4..4 + 8 * n], n));
    assert rest == rest[..4] + rest[4..4 + 8 * n] + rest[4 + 8 * n..];
  }

  /** Where the fields of an encoded task lie. */
  lemma FramedFields(env: TaskEnvelope)
    ensures var b := Framed(env); var n := |env.opId|;
            && b[..4] == Write(TASK_MAGIC, 4) && b[4..6] == Write(1, 2) && b[6..8] == Write(0, 2)
            && b[8..16] == Write(env.registryFp, 8) && b[16..20] == Write(n, 4)
            && b[20..20 + n] == env.opId
            && b[20 + n..] == Write(|env.args|, 4) + Table(Lengths(env.args)) + Joined(env.args)
  {
    hide Write, Table, Joined, Sum, Lengths;
    var head, tail := Head(env.registryFp, |env.opId|), Write(|env.args|, 4) + Table(Lengths(env.args)) + Joined(env.args);
    var b, n := Framed(env), |env.opId|;
    assert b == head + env.opId + tail;
    HeadFields(env.registryFp, n);
    assert b[..20] == head;
    assert b[..4] == b[..20][..4] && b[4..6] == b[..20][4..6] && b[6..8] == b[..20][6..8];
    assert b[8..16] == b[..20][8..16] && b[16..20] == b[..20][16..20];
  }

  lemma HeadFields(fp: nat, n: nat)
    ensures var h := Head(fp, n);
            && h[..4] == Write(TASK_MAGIC, 4) && h[4..6] == Write(1, 2) && h[6..8] == Write(0, 2)
            && h[8..16] == Write(fp, 8) && h[16..20] == Write(n, 4)
  {
    hide Write;
  }

  lemma HeaderReads()
    ensures Read(Write(TASK_MAGIC, 4)) == TASK_MAGIC && Read(Write(1, 2)) == 1
    ensures Read(Write(2, 2)) == 2 && Read(Write(ROUTING_MAGIC, 4)) == ROUTING_MAGIC
    ensures Write(1, 2) == [1, 0] && Write(2, 2) == [2, 0]
  {
    Powers();
    ReadWritten(TASK_MAGIC, 4);
    ReadWritten(ROUTING_MAGIC, 4);
    ReadWritten(1, 2);
    ReadWritten(2, 2);
    assert Write(0, 1) == [0];
  }

  predicate Small(env: TaskEnvelope) {
    |env.args| < TWO32 && forall k :: 0 <= k < |env.args| ==> |env.args[k]| < TWO64
  }

  lemma SmallIfFramedSmall(env: TaskEnvelope)
    requires |Framed(env)| <= MAX_PAYLOAD
    ensures Small(env)
  {
    hide Sum;
    forall k | 0 <= k < |env.args| ensures |env.args[k]| < TWO64 {
      SumPrefix(Lengths(env.args), k);
    }
  }

  /**
   * Encoding refuses exactly a name that is empty or longer than 256 and, after that, a task whose fields
   * and arguments together pass the cap; a task it accepts begins with the magic, version 1 and its own
   * fields, lowest byte first.
   */
  lemma EncodesExactly(env: TaskEnvelope, maxBytes: nat)
    ensures var (r, n, size) := (Encode(env, maxBytes), |env.opId|, 24 + |env.opId| + 8 * |env.args| + Sum(Lengths(env.args)));
            if n < 1 || n > 256 then r == Err(SyntaxError)
            else if size > maxBytes then r == Err(OverflowError)
            else
              && r.Ok? && |r.value| == size
              && r.value[..8] == [0x54, 0x44, 0x43, 0x4E, 1, 0, 0, 0]
              && Read(r.value[8..16]) == env.registryFp && Read(r.value[16..20]) == n && r.value[20..20 + n] == env.opId
              && (|env.args| < TWO32 ==> Read(r.value[20 + n..24 + n]) == |env.args|)
  {
    hide Write, Read, Table, Joined, Sum, Head;
    var b, n := Framed(env), |env.opId|;
    FramedFields(env);
    HeaderBytes();
    Powers();
    ReadWritten(env.registryFp, 8);
    if n <= 256 { ReadWritten(n, 4); }
    if |env.args| < TWO32 { ReadWritten(|env.args|, 4); }
    assert b[..8] == b[..4] + b[4..6] + b[6..8];
    var (count, tail) := (Write(|env.args|, 4), Table(Lengths(env.args)) + Joined(env.args));
    assert b[20 + n..] == count + tail && b[20 + n..24 + n] == b[20 + n..][..4] == count;
  }

  lemma HeaderBytes()
    ensures Write(TASK_MAGIC, 4) + Write(1, 2) + Write(0, 2) == [0x54, 0x44, 0x43, 0x4E, 1, 0, 0, 0]
  {
    assert Write(0x4E, 1) == [0x4E] && Write(0x4E43, 2) == [0x43, 0x4E] && Write(0x4E4344, 3) == [0x44, 0x43, 0x4E];
    assert Write(TASK_MAGIC, 4) == [0x54, 0x44, 0x43, 0x4E];
    assert Write(0, 1) == [0] && Write(0, 2) == [0, 0] && Write(1, 2) == [1, 0];
  }

  /**
   * Decoding an encoded task gives the task back exactly when its size is within the wire limit and
   * its name holds only characters 1 to 127, which encoding does not check; otherwise it is refused.
   */
  lemma EncodedDecodesExactly(env: TaskEnvelope, maxBytes: nat)
    requires Encode(env, maxBytes).Ok?
    ensures var bytes := Encode(env, maxBytes).value;
            if |bytes| <= 67_108_864 && (forall k | 0 <= k < |env.opId| :: 1 <= env.opId[k] <= 127) then Decode(bytes) == Ok(env)
            else Decode(bytes) == Err(SyntaxError)
  {
    hide Write, Read, Table, Joined, Sum, ParseArguments, Head;
    var bytes, n := Framed(env), |env.opId|;
    FramedFields(env);
    HeaderReads();
    Powers();
    ReadWritten(env.registryFp, 8);
    ReadWritten(n, 4);
    if |bytes| <= MAX_PAYLOAD {
      SmallIfFramedSmall(env);
      ArgumentsRead(env.args);
    }
  }

  /** What version 1 bytes decode to encodes to the same bytes, but that the reserved field is zeroed. */
  lemma DecodedEncodes(bytes: Bytes)
    requires Decode(bytes).Ok? && Read(bytes[4..6]) == 1
    ensures Encode(Decode(bytes).value, MAX_PAYLOAD) == Ok(bytes[6 := 0][7 := 0])
  {
    hide Write, Read, Table, Joined, Sum, ParseArguments, Head;
    var env := Decode(bytes).value;
    var n := Read(bytes[16..20]);
    var rest := bytes[20 + n..];
    WriteRead(bytes[..4]);
    WriteRead(bytes[4..6]);
    WriteRead(bytes[8..16]);
    WriteRead(bytes[16..20]);
    ArgumentsWrite(rest);
    HeadSplits(bytes, env.registryFp, n);
    assert bytes[6 := 0][7 := 0] == Head(env.registryFp, n) + env.opId + rest;
    var args := env.args;
    assert Framed(env) == Head(env.registryFp, n) + env.opId + (Write(|args|, 4) + Table(Lengths(args)) + Joined(args));
  }

  lemma HeadSplits(bytes: Bytes, fp: nat, n: nat)
    requires |bytes| >= 20 && bytes[..4] == Write(TASK_MAGIC, 4) && bytes[4..6] == Write(1, 2)
    requires bytes[8..16] == Write(fp, 8) && bytes[16..20] == Write(n, 4)
    ensures bytes[6 := 0][7 := 0][..20] == Head(fp, n)
  {
    hide Write;
    ZeroIsZeros();
    var b := bytes[6 := 0][7 := 0];
    assert b[..20] == b[..4] + b[4..6] + b[6..8] + b[8..16] + b[16..20];
  }

  lemma ZeroIsZeros()
    ensures Write(0, 2) == [0, 0]
  {
    assert Write(0, 1) == [0];
  }

  /** Hence version 1 bytes are the encoding of what they decode to exactly when the reserved field is zero. */
  lemma CanonicalExactly(bytes: Bytes)
    requires Decode(bytes).Ok? && Read(bytes[4..6]) == 1
    ensures Encode(Decode(bytes).value, MAX_PAYLOAD) == Ok(bytes) <==> bytes[6] == 0 && bytes[7] == 0
  {
    hide Decode, Encode, Read;
    DecodedHasHeader(bytes);
    DecodedEncodes(bytes);
    var zeroed := bytes[6 := 0][7 := 0];
    if bytes[6] == 0 && bytes[7] == 0 {
      assert zeroed == bytes;
    } else {
      assert zeroed[6] != bytes[6] || zeroed[7] != bytes[7];
    }
  }

  lemma DecodedHasHeader(bytes: Bytes)
    requires Decode(bytes).Ok?
    ensures |bytes| >= 20
  {}

  // ---------------------------------------------------------------- routing

  /** `routing_filter`: the bytes a tag adds, and the bytes a pump searches for. */
  function RoutingFilter(tag: Bytes): Result<Bytes> {
    if tag == [] then Ok([])
    else if |tag| > MAX_TAG then Err(OverflowError)
    else Ok(Write(ROUTING_MAGIC, 4) + tag + Write(|tag|, 4))
  }

  function WithVersion(bytes: Bytes, version: Byte): (r: Bytes)
    requires |bytes| >= 20
    ensures |r| == |bytes|
  {
    bytes[4 := version][5 := 0]
  }

  /** `without_routing_tag`. */
  function WithoutTag(bytes: Bytes): Result<Bytes> {
    match TrailerLength(bytes)
    case Err(error) => Err(error)
    case Ok(trailer) =>
      if trailer == 0 then Ok(bytes)
      else if |bytes| - trailer < 20 then Err(SyntaxError)
      else Ok(WithVersion(bytes[..|bytes| - trailer], 1))
  }

  /** `with_routing_tag`. */
  function WithTag(bytes: Bytes, tag: Bytes, maxBytes: nat): (r: Result<Bytes>)
    ensures r.Ok? ==> WithoutTag(bytes).Ok? && |tag| <= MAX_TAG
  {
    match WithoutTag(bytes)
    case Err(error) => Err(error)
    case Ok(plain) =>
      if tag == [] then Ok(plain)
      else
        match RoutingFilter(tag)
        case Err(error) => Err(error)
        case Ok(trailer) =>
          PlainIsVersionOne(bytes);
          if |plain| + |trailer| > maxBytes then Err(OverflowError) else Ok(WithVersion(plain, 2) + trailer)
  }

  /** `routing_tag_of`. */
  function TagOf(bytes: Bytes): Result<Bytes> {
    match TrailerLength(bytes)
    case Err(error) => Err(error)
    case Ok(trailer) =>
      if trailer == 0 then Ok([]) else Ok(bytes[|bytes| - trailer + 4..|bytes| - 4])
  }

  lemma ReadsOne(b: Bytes)
    requires |b| == 2
    ensures Read(b) == 1 <==> b == [1, 0]
  {
    HeaderReads();
    if Read(b) == 1 {
      WriteRead(b);
    }
  }

  predicate VersionOne(bytes: Bytes) {
    |bytes| >= 20 && Read(bytes[..4]) == TASK_MAGIC && bytes[4] == 1 && bytes[5] == 0
  }

  /** Bytes without a tag are version 1. */
  lemma PlainIsVersionOne(bytes: Bytes)
    requires WithoutTag(bytes).Ok?
    ensures VersionOne(WithoutTag(bytes).value)
  {
    hide Read, Write;
    ReadsOne(bytes[4..6]);
    var plain := WithoutTag(bytes).value;
    assert bytes[4] == bytes[4..6][0] && bytes[5] == bytes[4..6][1];
    var trailer := TrailerLength(bytes).value;
    assert Read(bytes[..4]) == TASK_MAGIC;
    if trailer != 0 {
      assert plain[..4] == bytes[..|bytes| - trailer][..4] == bytes[..4];
    }
  }

  /** The trailer of freshly tagged bytes is found from their end. */
  lemma TrailerIsFound(plain: Bytes, tag: Bytes)
    requires VersionOne(plain) && RoutingFilter(tag).Ok? && tag != []
    ensures TrailerLength(WithVersion(plain, 2) + RoutingFilter(tag).value) == Ok(8 + |tag|)
  {
    hide Read, Write;
    var front, trailer := WithVersion(plain, 2), RoutingFilter(tag).value;
    var t := front + trailer;
    HeaderReads();
    Powers();
    ReadWritten(|tag|, 4);
    assert t[..4] == plain[..4];
    assert t[4..6] == [2, 0];
    assert t[|t| - 4..] == Write(|tag|, 4);
    var at := |t| - (8 + |tag|);
    assert at == |front|;
    assert t[at..at + 4] == Write(ROUTING_MAGIC, 4);
  }

  /**
   * Tagging can be undone and read: the tag comes back, the bytes without it are those without
   * the old tag, and a pump searching for the tag's filter finds the task.
   */
  lemma TaggingRoundTrips(bytes: Bytes, tag: Bytes, maxBytes: nat)
    requires WithTag(bytes, tag, maxBytes).Ok?
    ensures var tagged := WithTag(bytes, tag, maxBytes).value;
            && TagOf(tagged) == Ok(tag)
            && WithoutTag(tagged) == WithoutTag(bytes)
            && Matches(tagged, RoutingFilter(tag).value)
            && (tag != [] ==> |tagged| <= maxBytes)
  {
    hide Read, Write, TrailerLength;
    var plain, tagged := WithoutTag(bytes).value, WithTag(bytes, tag, maxBytes).value;
    PlainIsVersionOne(bytes);
    if tag == [] {
      PlainHasNoTrailer(plain);
      assert MatchesAt(tagged, [], 0);
    } else {
      var trailer := RoutingFilter(tag).value;
      TrailerIsFound(plain, tag);
      var at := |plain|;
      assert tagged == WithVersion(plain, 2) + trailer;
      assert tagged[at + 4..|tagged| - 4] == tag;
      assert tagged[..at] == WithVersion(plain, 2);
      assert WithVersion(WithVersion(plain, 2), 1) == plain;
      assert tagged[at..at + |trailer|] == trailer;
      assert MatchesAt(tagged, trailer, at);
    }
  }

  lemma PlainHasNoTrailer(plain: Bytes)
    requires VersionOne(plain)
    ensures TrailerLength(plain) == Ok(0)
  {
    hide Read;
    assert plain[4..6] == [1, 0];
    ReadsOne(plain[4..6]);
  }

  /** Tagging again replaces the tag: no trace of the first one is left. */
  lemma RetaggingReplaces(bytes: Bytes, first: Bytes, second: Bytes, maxFirst: nat, maxBytes: nat)
    requires WithTag(bytes, first, maxFirst).Ok?
    ensures WithTag(WithTag(bytes, first, maxFirst).value, second, maxBytes) == WithTag(bytes, second, maxBytes)
  {
    hide RoutingFilter, TrailerLength, WithoutTag;
    TaggingRoundTrips(bytes, first, maxFirst);
  }

  lemma {:induction false} SameBody(a: Bytes, b: Bytes)
    requires |a| == |b| >= 20 && a[8..] == b[8..]
    ensures ParseBody(a) == ParseBody(b)
  {
    hide Read, ParseArguments;
    assert forall k :: 8 <= k < |a| ==> a[k] == a[8..][k - 8] && b[k] == b[8..][k - 8];
    assert a[8..16] == b[8..16] && a[16..20] == b[16..20];
    var n := Read(a[16..20]);
    if |a| >= 24 + n {
      assert a[20..20 + n] == b[20..20 + n] && a[20 + n..] == b[20 + n..];
    }
  }

  /** Routing does not change the task: tagged bytes within the limit decode to what the plain bytes do. */
  lemma DecodingIgnoresTheTag(bytes: Bytes)
    requires WithoutTag(bytes).Ok? && |bytes| <= MAX_PAYLOAD
    ensures Decode(bytes) == Decode(WithoutTag(bytes).value)
  {
    hide Read, ParseBody;
    PlainIsVersionOne(bytes);
    var plain, trailer := WithoutTag(bytes).value, TrailerLength(bytes).value;
    PlainReads(plain);
    if trailer != 0 {
      var body := bytes[..|bytes| - trailer];
      SameBody(body, plain);
    }
  }

  /**
   * When tagging succeeds, and with what: of bytes that are a task, with a tag of at most 240 bytes that
   * fits under the cap. The version becomes two, and the magic, the tag and its length follow.
   */
  lemma TagsExactly(bytes: Bytes, tag: Bytes, maxBytes: nat)
    ensures var r := WithTag(bytes, tag, maxBytes);
            if WithoutTag(bytes).Err? then r == Err(SyntaxError)
            else if tag == [] then r == WithoutTag(bytes)
            else
              var plain := WithoutTag(bytes).value;
              if |tag| > 240 || |plain| + 8 + |tag| > maxBytes then r == Err(OverflowError)
              else |plain| >= 20 && r == Ok(plain[4 := 2] + [0x4F, 0x52, 0x43, 0x4E] + tag + [|tag|, 0, 0, 0])
  {
    hide Read;
    if WithoutTag(bytes).Ok? && tag != [] && |tag| <= MAX_TAG {
      var plain := WithoutTag(bytes).value;
      PlainIsVersionOne(bytes);
      TrailerBytes(tag);
      hide RoutingFilter, WithoutTag, TrailerLength;
      assert WithVersion(plain, 2) == plain[4 := 2];
      assert plain[4 := 2] + (MAGIC_BYTES + tag + [|tag|, 0, 0, 0]) == plain[4 := 2] + MAGIC_BYTES + tag + [|tag|, 0, 0, 0];
    }
  }

  /** Bytes that carry a tag are exactly what tagging makes of their plain bytes and that tag. */
  lemma TaggedIsRebuilt(bytes: Bytes)
    requires WithoutTag(bytes).Ok? && TagOf(bytes) != Ok([])
    ensures TagOf(bytes).Ok? && WithTag(WithoutTag(bytes).value, TagOf(bytes).value, |bytes|) == Ok(bytes)
  {
    hide Read, Write;
    var plain, tag, trailer := WithoutTag(bytes).value, TagOf(bytes).value, TrailerLength(bytes).value;
    var at := |bytes| - trailer;
    WriteRead(bytes[|bytes| - 4..]);
    WriteRead(bytes[at..at + 4]);
    WriteRead(bytes[4..6]);
    HeaderReads();
    assert bytes[4] == bytes[4..6][0] && bytes[5] == bytes[4..6][1];
    PlainIsVersionOne(bytes);
    PlainHasNoTrailer(plain);
    hide TrailerLength, RoutingFilter;
    assert WithVersion(plain, 2) == bytes[..at];
    assert bytes == bytes[..at] + (bytes[at..at + 4] + tag + bytes[|bytes| - 4..]);
    FilterIs(tag);
  }

  lemma FilterIs(tag: Bytes)
    requires tag != [] && |tag| <= MAX_TAG
    ensures RoutingFilter(tag) == Ok(Write(ROUTING_MAGIC, 4) + tag + Write(|tag|, 4))
  {
    hide Write;
  }

  /** Version 2 bytes decode exactly if they are a tagged task within the limit, and then as that task. */
  lemma VersionTwoDecodesExactly(bytes: Bytes)
    requires |bytes| >= 6 && bytes[4] == 2 && bytes[5] == 0
    ensures Decode(bytes)
         == if WithoutTag(bytes).Ok? && |bytes| <= 67_108_864 then Decode(WithoutTag(bytes).value) else Err(SyntaxError)
  {
    hide Read, ParseBody;
    if WithoutTag(bytes).Ok? && |bytes| <= MAX_PAYLOAD {
      DecodingIgnoresTheTag(bytes);
    }
    HeaderReads();
    assert bytes[4..6] == [2, 0];
  }

  lemma PlainReads(plain: Bytes)
    requires VersionOne(plain)
    ensures Read(plain[4..6]) == 1
  {
    assert plain[4..6] == [1, 0];
    ReadsOne(plain[4..6]);
  }

  /** A task keeps its identity whatever its tag: without it the bytes are its own encoding. */
  lemma TaggedTaskKeepsItsIdentity(env: TaskEnvelope, tag: Bytes, maxBytes: nat)
    requires Encode(env, MAX_PAYLOAD).Ok? && CleanName(env.opId)
    requires WithTag(Framed(env), tag, maxBytes).Ok? && maxBytes <= MAX_PAYLOAD
    ensures var tagged := WithTag(Framed(env), tag, maxBytes).value;
            WithoutTag(tagged) == Ok(Framed(env)) && Decode(tagged) == Ok(env)
  {
    hide WithTag, WithoutTag, Decode, Framed, TrailerLength, Read;
    FramedIsPlain(env);
    TaggingRoundTrips(Framed(env), tag, maxBytes);
    var tagged := WithTag(Framed(env), tag, maxBytes).value;
    if tag == [] {
      UntaggedIsKept(env, maxBytes);
    }
    EncodedDecodesExactly(env, MAX_PAYLOAD);
    DecodingIgnoresTheTag(tagged);
  }

  lemma FramedIsPlain(env: TaskEnvelope)
    ensures WithoutTag(Framed(env)) == Ok(Framed(env))
  {
    hide Read, Write, Framed, Table, Joined;
    FramedFields(env);
    HeaderReads();
  }

  lemma UntaggedIsKept(env: TaskEnvelope, maxBytes: nat)
    ensures WithTag(Framed(env), [], maxBytes) == Ok(Framed(env))
  {
    hide WithoutTag, Framed;
    FramedIsPlain(env);
  }

  // ---------------------------------------------------------------- matching another tag's filter

  const MAGIC_BYTES: Bytes := [0x4F, 0x52, 0x43, 0x4E]

  lemma TrailerBytes(tag: Bytes)
    requires tag != [] && |tag| <= MAX_TAG
    ensures RoutingFilter(tag) == Ok(MAGIC_BYTES + tag + [|tag|, 0, 0, 0])
  {
    assert Write(ROUTING_MAGIC, 4) == MAGIC_BYTES by {
      assert Write(0x4E, 1) == [0x4E] && Write(0x4E43, 2) == [0x43, 0x4E] && Write(0x4E4352, 3) == [0x52, 0x43, 0x4E];
    }
    assert Write(|tag|, 4) == [|tag|, 0, 0, 0] by {
      assert Write(0, 1) == [0] && Write(0, 2) == [0, 0] && Write(0, 3) == [0, 0, 0];
    }
  }

  /** The filter of `b` occurs among the magic and the bytes of tag `a`: a check on the tags alone. */
  predicate Contains(a: Bytes, b: Bytes)
    requires b != [] && |b| <= MAX_TAG
  {
    Matches(MAGIC_BYTES + a, RoutingFilter(b).value)
  }

  /** In the trailer of a tag another tag's filter never reaches into the length. */
  lemma LengthIsNotMatched(a: Bytes, b: Bytes, k: nat)
    requires a != [] && |a| <= MAX_TAG && b != [] && |b| <= MAX_TAG && a != b
    ensures MatchesAt(RoutingFilter(a).value, RoutingFilter(b).value, k)
            <==> MatchesAt(MAGIC_BYTES + a, RoutingFilter(b).value, k)
  {
    hide RoutingFilter;
    TrailerBytes(a);
    TrailerBytes(b);
    var x, y, front := RoutingFilter(a).value, RoutingFilter(b).value, MAGIC_BYTES + a;
    var past := k + |y| - |front|;
    if past <= 0 {
      assert x[k..k + |y|] == front[k..k + |y|];
    } else if past == 4 {
      LastMatch(a, b, k);
    } else if past < 4 {
      var part := x[k..k + |y|];
      assert part[|front| - k] == x[|front|] == |a|;
      assert y[|front| - k] == 0;
    }
  }

  /** Where the two trailers end together only equal tags match. */
  lemma LastMatch(a: Bytes, b: Bytes, k: nat)
    requires a != [] && |a| <= MAX_TAG && b != [] && |b| <= MAX_TAG && a != b
    requires k + |b| == |a|
    ensures !MatchesAt(RoutingFilter(a).value, RoutingFilter(b).value, k)
  {
    hide RoutingFilter;
    TrailerBytes(a);
    TrailerBytes(b);
    var x, y := RoutingFilter(a).value, RoutingFilter(b).value;
    var part := x[k..k + |y|];
    if k > 0 {
      assert part[4 + |b|] == x[4 + |a|] == |a|;
      assert y[4 + |b|] == |b|;
    } else {
      var j :| 0 <= j < |a| && a[j] != b[j];
      assert part[4 + j] == x[4 + j] == a[j] && y[4 + j] == b[j];
    }
  }

  /** The filter begins in the task's own bytes. */
  ghost predicate MatchesBody(bytes: Bytes, tagged: Bytes, filter: Bytes)
    requires WithoutTag(bytes).Ok?
  {
    exists i: nat :: i < |WithoutTag(bytes).value| && MatchesAt(tagged, filter, i)
  }

  /**
   * A task routed by tag `a` is found by the filter of another tag `b` exactly if that filter begins in
   * the task's own bytes, or tag `a` itself contains it: for tags that do not, the trailer alone never
   * matches a second filter.
   */
  lemma OtherFilterMatchesExactly(bytes: Bytes, a: Bytes, b: Bytes, maxBytes: nat)
    requires WithTag(bytes, a, maxBytes).Ok? && a != [] && b != [] && |b| <= MAX_TAG && a != b
    ensures var tagged, filter := WithTag(bytes, a, maxBytes).value, RoutingFilter(b).value;
            Matches(tagged, filter) <==> MatchesBody(bytes, tagged, filter) || Contains(a, b)
  {
    PlainIsVersionOne(bytes);
    hide RoutingFilter, WithoutTag, Contains, Matches;
    TrailerBytes(a);
    TrailerBytes(b);
    MatchSplits(WithVersion(WithoutTag(bytes).value, 2), RoutingFilter(a).value, RoutingFilter(b).value);
    TrailerContains(a, b);
  }

  /** A match in two parts put together begins in the first or lies in the second. */
  lemma MatchSplits(front: Bytes, back: Bytes, filter: Bytes)
    ensures Matches(front + back, filter)
            <==> (exists i: nat :: i < |front| && MatchesAt(front + back, filter, i)) || Matches(back, filter)
  {
    var all, n := front + back, |front|;
    forall k: nat ensures MatchesAt(all, filter, n + k) <==> MatchesAt(back, filter, k) {
      if k + |filter| <= |back| {
        SliceBehind(front, back, k, k + |filter|);
      }
    }
    if Matches(all, filter) {
      var i: nat :| i <= |all| && MatchesAt(all, filter, i);
      if i >= n {
        assert MatchesAt(back, filter, i - n);
      }
    }
    if Matches(back, filter) {
      var k: nat :| k <= |back| && MatchesAt(back, filter, k);
      assert MatchesAt(all, filter, n + k);
    }
  }

  lemma SliceBehind(front: Bytes, back: Bytes, from: nat, to: nat)
    requires from <= to <= |back|
    ensures (front + back)[|front| + from..|front| + to] == back[from..to]
  {
    var x, y := (front + back)[|front| + from..|front| + to], back[from..to];
    forall j | 0 <= j < |y| ensures x[j] == y[j] {
      assert x[j] == (front + back)[|front| + from + j];
    }
  }

  lemma TrailerContains(a: Bytes, b: Bytes)
    requires a != [] && |a| <= MAX_TAG && b != [] && |b| <= MAX_TAG && a != b
    ensures RoutingFilter(a).Ok? && RoutingFilter(b).Ok?
    ensures Matches(RoutingFilter(a).value, RoutingFilter(b).value) <==> Contains(a, b)
  {
    hide RoutingFilter, MatchesAt;
    TrailerBytes(a);
    TrailerBytes(b);
    var x, y, front := RoutingFilter(a).value, RoutingFilter(b).value, MAGIC_BYTES + a;
    forall k: nat ensures MatchesAt(x, y, k) <==> MatchesAt(front, y, k) {
      LengthIsNotMatched(a, b, k);
    }
    if Matches(x, y) {
      var k: nat :| k <= |x| && MatchesAt(x, y, k);
      MatchInBounds(front, y, k);
    }
  }

  lemma MatchInBounds(payload: Bytes, filter: Bytes, k: nat)
    requires MatchesAt(payload, filter, k)
    ensures k <= |payload|
  {}

  /** A tag none of whose bytes can be taken for the padding of a length. */
  predicate CleanTag(tag: Bytes) {
    0 < |tag| <= MAX_TAG && 0 !in tag
  }

  lemma CleanTagContainsNone(a: Bytes, b: Bytes)
    requires CleanTag(a) && b != [] && |b| <= MAX_TAG
    ensures !Contains(a, b)
  {
    hide RoutingFilter;
    TrailerBytes(b);
    var x, y := MAGIC_BYTES + a, RoutingFilter(b).value;
    forall k: nat | k <= |x| ensures !MatchesAt(x, y, k) {
      if k + |y| <= |x| {
        var part := x[k..k + |y|];
        assert part[0] == x[k] && part[5 + |b|] == x[k + 5 + |b|];
        assert k >= 4 ==> x[k] == a[k - 4];
        assert x[k + 5 + |b|] == a[k + 1 + |b|];
        assert y[5 + |b|] == 0;
      }
    }
  }

  /** So a clean tag keeps other filters to the task's own bytes. */
  lemma OtherFiltersMatchOnlyTheBody(bytes: Bytes, a: Bytes, b: Bytes, maxBytes: nat)
    requires WithTag(bytes, a, maxBytes).Ok? && CleanTag(a) && b != [] && |b| <= MAX_TAG && a != b
    ensures WithoutTag(bytes).Ok?
    ensures var tagged, filter := WithTag(bytes, a, maxBytes).value, RoutingFilter(b).value;
            Matches(tagged, filter) <==> MatchesBody(bytes, tagged, filter)
  {
    hide RoutingFilter, WithTag, WithoutTag, Contains, Matches;
    OtherFilterMatchesExactly(bytes, a, b, maxBytes);
    CleanTagContainsNone(a, b);
  }

  /** And a tag made of another tag and that tag's length matches the other's filter, whatever the task. */
  lemma NestedTagMatchesTwice(bytes: Bytes, b: Bytes, maxBytes: nat)
    requires b != [] && |b| + 4 <= MAX_TAG && WithTag(bytes, b + [|b|, 0, 0, 0], maxBytes).Ok?
    ensures Matches(WithTag(bytes, b + [|b|, 0, 0, 0], maxBytes).value, RoutingFilter(b).value)
  {
    var a := b + [|b|, 0, 0, 0];
    OtherFilterMatchesExactly(bytes, a, b, maxBytes);
    hide WithTag, RoutingFilter;
    TrailerBytes(b);
    assert MAGIC_BYTES + a == MAGIC_BYTES + b + [|b|, 0, 0, 0];
    assert MatchesAt(MAGIC_BYTES + a, RoutingFilter(b).value, 0);
  }

  datatype Placement = Direct | Cpu | Gpu | Docker | Distributed | Cloud

  /** `placement_tag`: the ASCII of the placement's name. */
  function PlacementTag(p: Placement): Bytes {
    match p
    case Direct => Ascii("direct")
    case Cpu => Ascii("cpu")
    case Gpu => Ascii("gpu")
    case Docker => Ascii("docker")
    case Distributed => Ascii("distributed")
    case Cloud => Ascii("cloud")
  }

  function Ascii(s: string): (r: Bytes)
    requires forall k :: 0 <= k < |s| ==> s[k] as int < 128
    ensures |r| == |s| && forall k :: 0 <= k < |s| ==> r[k] == s[k] as int
  {
    seq(|s|, k requires 0 <= k < |s| => s[k] as int)
  }

  /** The tags of the placements are clean and different, so routing by placement keeps them apart. */
  lemma PlacementTagsAreClean(p: Placement, q: Placement)
    ensures CleanTag(PlacementTag(p))
    ensures PlacementTag(p) == PlacementTag(q) ==> p == q
  {
    var x, y := PlacementTag(p), PlacementTag(q);
    if x == y {
      assert x[0] == y[0] && x[1] == y[1] && x[2] == y[2];
    }
  }
}
