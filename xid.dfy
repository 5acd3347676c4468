/** The `Xid` object and the process-wide state it mints new IDs from.

    An `Xid` is a 12-byte array. It is filled once, when it is created:
    minted from the clock and the generator, copied from other bytes, or
    decoded from text. The clock reading (seconds since the epoch), the
    random bytes drawn at start-up and the host's process id are parameters
    here. */
module Ids {
  import opened Alphabet
  import opened Codec
  import opened Layout

  /** The static fields shared by every `Xid`: a random machine identifier,
      the process id and the counter, which every minted ID advances. */
  class Generator {
    const machineId: seq<Byte>
    const pid: Word
    var counter: Word

    ghost predicate Valid()
      reads this
    {
      |machineId| == 3 && pid < 0x1_0000 && counter <= 0xFF_FFFF
    }

    /** The state at module initialisation: `machine` and `start` are three
        random bytes each, `host` the host's process id if there is one,
        `random` the two random bytes used when there is not. */
    constructor (start: seq<Byte>, machine: seq<Byte>, host: Option<Word>, random: seq<Byte>)
      requires |start| == 3 && |machine| == 3 && |random| == 2
      ensures Valid()
      ensures machineId == machine && pid == GetPid(host, random)
      ensures counter == StartCounter(start)
    {
      machineId := machine;
      pid := GetPid(host, random);
      counter := StartCounter(start);
    }

    /** `new Xid()`: steps the counter, wrapping past 2^24 - 1 to zero, and
        fills a new ID with the bytes laid out from the clock and this
        state. */
    method Mint(now: Word) returns (x: Xid)
      requires Valid()
      modifies this
      ensures Valid() && counter == NextCounter(old(counter))
      ensures fresh(x) && fresh(x.data) && x.Valid()
      ensures x.data[..] == MintedBytes(now, machineId, pid, counter)
    {
      counter := counter + 1;
      if counter > 0xFF_FFFF {
        counter := 0;
      }
      x := new Xid.Copy(MintedBytes(now, machineId, pid, counter));
    }
  }

  /** A slot of a JavaScript array as `fromValue` inspects it: a number, a
      value of another type, or a hole (a slot of a sparse array that holds
      nothing). NaN and the infinities fail the range test, as `NotNumber`
      does. */
  datatype Element = Number(n: real) | NotNumber | Hole

  /** The values `fromValue` accepts, by their run-time kind. */
  datatype Value =
    | IdObject(x: Xid)              // an existing Xid
    | Text(s: string)
    | Bytes(bytes: seq<Byte>)       // a Uint8Array
    | Buffer(buffer: seq<Byte>)     // an ArrayBuffer
    | Numbers(elements: seq<Element>)
    | Unsupported

  /** A slot that passes `v.every(byte => typeof byte === 'number' &&
      byte >= 0 && byte <= 255)`: a number from 0 to 255, or a hole, which
      `every` does not visit. */
  predicate ByteElement(e: Element)
  {
    e.Hole? || (e.Number? && 0.0 <= e.n <= 255.0)
  }

  /** Every slot passes that test. */
  predicate AllByteElements(es: seq<Element>)
  {
    forall i :: 0 <= i < |es| ==> ByteElement(es[i])
  }

  /** The byte `new Uint8Array(v)` stores for such a slot: a number loses
      its fraction; a hole is read as `undefined`, which converts to NaN
      and is stored as 0. */
  function ToUint8(e: Element): (x: Byte)
    requires ByteElement(e)
    ensures e.Hole? ==> x == 0
    ensures e.Number? ==> x as real <= e.n < x as real + 1.0
  {
    if e.Hole? then 0 else ByteOf(e.n.Floor)
  }

  /** The byte whose value is `k`, counted up from zero. */
  function ByteOf(k: int): (x: Byte)
    requires 0 <= k < 256
    ensures x as int == k
  {
    if k == 0 then 0 else ByteOf(k - 1) + 1
  }

  /** The bytes `new Uint8Array(v)` holds for an array `v` of such
      slots. */
  function NumbersToBytes(es: seq<Element>): (b: seq<Byte>)
    requires AllByteElements(es)
    ensures |b| == |es|
    ensures forall i :: 0 <= i < |es| ==>
      && (es[i].Hole? ==> b[i] == 0)
      && (es[i].Number? ==> b[i] as real <= es[i].n < b[i] as real + 1.0)
  {
    seq(|es|, i requires 0 <= i < |es| => ToUint8(es[i]))
  }

  class Xid {
    /** The 12 bytes of the ID. */
    const data: array<Byte>

    ghost predicate Valid()
      reads this
    {
      data.Length == RawLen
    }

    /** `new Xid(id)` for a 12-byte `id`: a copy of its bytes. */
    constructor Copy(id: seq<Byte>)
      requires |id| == RawLen
      ensures Valid() && fresh(data) && data[..] == id
    {
      data := new Byte[RawLen](i requires 0 <= i < RawLen => id[i]);
    }

    /** `new Xid(id?)`: without an argument a freshly minted ID; with one, a
        copy of it if it has 12 bytes and the error otherwise. */
    static method New(g: Generator, now: Word, id: Option<seq<Byte>>) returns (r: Result<Xid>)
      requires g.Valid()
      modifies g
      ensures g.Valid()
      ensures r.Ok? ==> fresh(r.value) && fresh(r.value.data) && r.value.Valid()
      ensures id.None? ==>
        && r.Ok?
        && g.counter == NextCounter(old(g.counter))
        && r.value.data[..] == MintedBytes(now, g.machineId, g.pid, g.counter)
      ensures id.Some? ==>
        && g.counter == old(g.counter)
        && (r.Ok? <==> |id.value| == RawLen)
        && (r.Ok? ==> r.value.data[..] == id.value)
    {
      if id.None? {
        var x := g.Mint(now);
        r := Ok(x);
      } else if |id.value| != RawLen {
        r := InvalidId;
      } else {
        var x := new Xid.Copy(id.value);
        r := Ok(x);
      }
    }

    /** `Xid.default()`: a new ID whose bytes are all zero. */
    static method Default() returns (x: Xid)
      ensures fresh(x) && fresh(x.data) && x.Valid()
      ensures x.data[..] == Zero && IsZero(x.data[..])
    {
      x := new Xid.Copy(Zero);
      IsZeroMeansZero(x.data[..]);
    }

    /** `Xid.fromValue(v)`: an Xid is returned as it is, text is parsed, and
        12 bytes, a 12-byte buffer or an array of 12 slots, each a number from
        0 to 255 or a hole, are copied
        into a new ID; anything else is the error. */
    static method FromValue(g: Generator, now: Word, v: Value) returns (r: Result<Xid>)
      requires g.Valid()
      modifies g
      ensures g.Valid()
      ensures !v.Text? ==> g.counter == old(g.counter)
      ensures v.IdObject? ==> r == Ok(v.x)
      ensures v.Text? ==>
        && g.counter == (if |v.s| == EncodedLen then NextCounter(old(g.counter)) else old(g.counter))
        && (r.Ok? <==> Codec.Decode(v.s).Ok?)
      ensures !v.IdObject? && r.Ok? ==> fresh(r.value) && fresh(r.value.data) && r.value.Valid()
      ensures v.Text? && r.Ok? ==> r.value.data[..] == Codec.Decode(v.s).value
      ensures v.Bytes? ==>
        && (r.Ok? <==> |v.bytes| == RawLen)
        && (r.Ok? ==> r.value.data[..] == v.bytes)
      ensures v.Buffer? ==>
        && (r.Ok? <==> |v.buffer| == RawLen)
        && (r.Ok? ==> r.value.data[..] == v.buffer)
      ensures v.Numbers? ==>
        && (r.Ok? <==> |v.elements| == RawLen && AllByteElements(v.elements))
        && (r.Ok? ==> r.value.data[..] == NumbersToBytes(v.elements))
      ensures v.Unsupported? ==> r == InvalidId
    {
      if v.IdObject? {
        r := Ok(v.x);
      } else if v.Text? {
        r := Parse(g, now, v.s);
      } else if v.Bytes? && |v.bytes| == RawLen {
        var x := new Xid.Copy(v.bytes);
        r := Ok(x);
      } else if v.Buffer? && |v.buffer| == RawLen {
        var x := new Xid.Copy(v.buffer);
        r := Ok(x);
      } else if v.Numbers? && |v.elements| == RawLen && AllByteElements(v.elements) {
        var x := new Xid.Copy(NumbersToBytes(v.elements));
        r := Ok(x);
      } else {
        r := InvalidId;
      }
    }

    /** `Xid.parse(s)`: text of the wrong length is refused at once;
        otherwise a new ID is minted, advancing the counter, and then
        overwritten by decoding, which may still fail. */
    static method Parse(g: Generator, now: Word, s: string) returns (r: Result<Xid>)
      requires g.Valid()
      modifies g
      ensures g.Valid()
      ensures g.counter == if |s| == EncodedLen then NextCounter(old(g.counter)) else old(g.counter)
      ensures r.Ok? <==> Codec.Decode(s).Ok?
      ensures r.Ok? ==>
        && fresh(r.value) && fresh(r.value.data) && r.value.Valid()
        && r.value.data[..] == Codec.Decode(s).value
    {
      if |s| != EncodedLen {
        return InvalidId;
      }
      var x := g.Mint(now);
      var ok := x.Decode(s);
      if ok {
        r := Ok(x);
      } else {
        r := InvalidId;
      }
    }

    /** Decodes `s` into this ID's bytes. It stores byte 11 before checking
        the padding bits of the last symbol, so text that fails only that
        check leaves byte 11 overwritten. */
    method Decode(s: string) returns (ok: bool)
      requires Valid()
      modifies data
      ensures ok <==> Codec.Decode(s).Ok?
      ensures ok ==> data[..] == Codec.Decode(s).value
      ensures !(|s| == EncodedLen && InAlphabet(s)) ==> data[..] == old(data[..])
      ensures |s| == EncodedLen && InAlphabet(s) && !ok ==>
        data[..] == old(data[..])[11 := DecodeSlot(Digits(s), 11)]
    {
      if |s| != EncodedLen {
        return false;
      }
      var k := 0;
      while k < EncodedLen
        invariant 0 <= k <= EncodedLen
        invariant forall j :: 0 <= j < k ==> Digit(s[j]) != Invalid
      {
        if Digit(s[k]) == Invalid {
          return false;
        }
        k := k + 1;
      }
      var d := Digits(s);
      ghost var b := Unpack(d);
      DecodeSymbols(s);
      data[11] := DecodeSlot(d, 11);
      if Symbol((W(data[11]) << 4) & 0x1F) != s[19] {
        assert data[..] == old(data[..])[11 := DecodeSlot(d, 11)];
        return false;
      }
      var i := 11;
      while i > 0
        invariant 0 <= i <= 11
        invariant forall j :: 0 <= j < i ==> data[j] == old(data[j])
        invariant forall j :: i <= j < RawLen ==> data[j] == b[j]
      {
        i := i - 1;
        data[i] := DecodeSlot(d, i);
      }
      assert data[..] == b;
      ok := true;
    }

    /** The text form of this ID, written symbol by symbol from the last. */
    method Encode() returns (s: string)
      requires Valid()
      ensures s == Codec.Encode(data[..])
    {
      var b: Id := data[..];
      var dst := new char[EncodedLen];
      var k := EncodedLen;
      while k > 0
        invariant 0 <= k <= EncodedLen
        invariant forall j :: k <= j < EncodedLen ==> dst[j] == Symbol(EncodeSlot(b, j))
      {
        k := k - 1;
        dst[k] := Symbol(EncodeSlot(b, k));
      }
      s := dst[..];
    }

    /** Compares the two IDs byte by byte, stopping at the first
        difference. */
    method Equals(other: Xid) returns (eq: bool)
      requires Valid() && other.Valid()
      ensures eq <==> data[..] == other.data[..]
    {
      var i := 0;
      while i < RawLen
        invariant 0 <= i <= RawLen
        invariant forall j :: 0 <= j < i ==> data[j] == other.data[j]
      {
        if data[i] != other.data[i] {
          return false;
        }
        i := i + 1;
      }
      return true;
    }
  }
}
