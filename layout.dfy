/** Where the fields of an ID live in its 12 bytes, and how a new ID is
    laid out.

      bytes 0-3   seconds since the Unix epoch, big-endian
      bytes 4-6   machine identifier (three random bytes per process)
      bytes 7-8   process id, big-endian
      bytes 9-11  counter, meant to be big-endian */
module Layout {
  import opened Codec

  datatype Option<T> = None | Some(value: T)

  // ---------------------------------------------------------------------
  // Reading the fields

  /** The timestamp: bytes 0-3 read as an unsigned big-endian 32-bit
      number, as `DataView.getUint32` does by default. */
  function Timestamp(b: Id): (t: Word)
    ensures Store(t >> 24) == b[0] && Store(t >> 16) == b[1]
    ensures Store(t >> 8) == b[2] && Store(t) == b[3]
  {
    (W(b[0]) << 24) | (W(b[1]) << 16) | (W(b[2]) << 8) | W(b[3])
  }

  /** The machine identifier: bytes 4-6. */
  function Machine(b: Id): (m: seq<Byte>)
    ensures |m| == 3 && m[0] == b[4] && m[1] == b[5] && m[2] == b[6]
  {
    b[4..7]
  }

  /** The process id: bytes 7-8, big-endian. */
  function Pid(b: Id): (p: Word)
    ensures p < 0x1_0000
    ensures Store(p >> 8) == b[7] && Store(p) == b[8]
  {
    (W(b[7]) << 8) | W(b[8])
  }

  /** The counter: bytes 9-11, big-endian. */
  function Counter(b: Id): (c: Word)
    ensures c <= 0xFF_FFFF
    ensures Store(c >> 16) == b[9] && Store(c >> 8) == b[10] && Store(c) == b[11]
  {
    (W(b[9]) << 16) | (W(b[10]) << 8) | W(b[11])
  }

  /** Every byte is zero. */
  predicate IsZero(b: Id)
  {
    forall i :: 0 <= i < RawLen ==> b[i] == 0
  }

  /** The only ID whose bytes are all zero is `Zero`. */
  lemma IsZeroMeansZero(b: Id)
    ensures IsZero(b) <==> b == Zero
  {
    if IsZero(b) {
      SameId(b, Zero);
    }
  }

  /** Every field of the zero ID is zero. */
  lemma ZeroFields(b: Id)
    requires b == Zero
    ensures IsZero(b)
    ensures Timestamp(b) == 0 && Machine(b) == [0, 0, 0] && Pid(b) == 0 && Counter(b) == 0
  {
  }

  // ---------------------------------------------------------------------
  // The process-wide generator state

  /** The initial counter: three random bytes read big-endian. */
  function StartCounter(start: seq<Byte>): (c: Word)
    requires |start| == 3
    ensures c <= 0xFF_FFFF
    ensures Store(c >> 16) == start[0] && Store(c >> 8) == start[1] && Store(c) == start[2]
  {
    (W(start[0]) << 16) | (W(start[1]) << 8) | W(start[2])
  }

  /** The process id an ID carries. When a `process` object with a positive
      `pid` exists (`host` is `Some`), its low 16 bits; otherwise two random
      bytes read big-endian. */
  function GetPid(host: Option<Word>, random: seq<Byte>): (p: Word)
    requires |random| == 2
    ensures p < 0x1_0000
    ensures host.Some? && host.value > 0 ==> p == host.value % 0x1_0000
    ensures !(host.Some? && host.value > 0) ==> Store(p >> 8) == random[0] && Store(p) == random[1]
  {
    if host.Some? && host.value > 0 then host.value & 0xFFFF
    else (W(random[0]) << 8) | W(random[1])
  }

  /** The counter after one step: it counts up and wraps past 2^24 - 1 to
      zero. */
  function NextCounter(c: Word): (n: Word)
    requires c <= 0xFF_FFFF
    ensures n <= 0xFF_FFFF
  {
    if c + 1 > 0xFF_FFFF then 0 else c + 1
  }

  /** The counter never skips a value: each step adds one, except from
      the largest 24-bit value, which wraps to zero. */
  lemma NextCounterSteps(c: Word)
    requires c <= 0xFF_FFFF
    ensures c < 0xFF_FFFF ==> NextCounter(c) == c + 1
    ensures c == 0xFF_FFFF ==> NextCounter(c) == 0
    ensures NextCounter(c) != c
  {
  }

  // ---------------------------------------------------------------------
  // Laying out a new ID

  /** The bytes of a minted ID as the code writes them: the timestamp as
      `DataView.setUint32` writes it (big-endian), the machine identifier,
      the process id and the counter. The counter's middle
      byte is `counter & 0x00FFFF >> 8`; shifts bind tighter than `&` in
      JavaScript, so this is `counter & 0xFF`, the low byte again. */
  function MintedBytes(now: Word, machine: seq<Byte>, pid: Word, counter: Word): Id
    requires |machine| == 3
  {
    [Store(now >> 24), Store(now >> 16), Store(now >> 8), Store(now),
     machine[0], machine[1], machine[2],
     Store(pid >> 8), Store(pid & 0x00FF),
     Store(counter >> 16), Store(counter & (0x00FFFF >> 8)), Store(counter & 0x0000FF)]
  }

  /** The bytes of a minted ID as evidently intended: the counter's middle
      byte is `(counter & 0x00FFFF) >> 8`. */
  function IntendedMintedBytes(now: Word, machine: seq<Byte>, pid: Word, counter: Word): Id
    requires |machine| == 3
  {
    [Store(now >> 24), Store(now >> 16), Store(now >> 8), Store(now),
     machine[0], machine[1], machine[2],
     Store(pid >> 8), Store(pid & 0x00FF),
     Store(counter >> 16), Store((counter & 0x00FFFF) >> 8), Store(counter & 0x0000FF)]
  }

  /** Reading the fields back from a minted ID: the timestamp, machine and
      process id come back unchanged, but the counter comes back with its
      middle byte replaced by its low byte. */
  lemma MintedFields(now: Word, machine: seq<Byte>, pid: Word, counter: Word)
    requires |machine| == 3 && pid < 0x1_0000 && counter <= 0xFF_FFFF
    ensures Timestamp(MintedBytes(now, machine, pid, counter)) == now
    ensures Machine(MintedBytes(now, machine, pid, counter)) == machine
    ensures Pid(MintedBytes(now, machine, pid, counter)) == pid
    ensures Counter(MintedBytes(now, machine, pid, counter))
      == (counter & 0xFF_00FF) | ((counter & 0xFF) << 8)
  {
    var b := MintedBytes(now, machine, pid, counter);
    WordBytesRead(now, b);
  }

  /** Reading the fields back from an ID laid out as intended gives every
      field back, the counter included. */
  lemma IntendedMintedFields(now: Word, machine: seq<Byte>, pid: Word, counter: Word)
    requires |machine| == 3 && pid < 0x1_0000 && counter <= 0xFF_FFFF
    ensures Timestamp(IntendedMintedBytes(now, machine, pid, counter)) == now
    ensures Machine(IntendedMintedBytes(now, machine, pid, counter)) == machine
    ensures Pid(IntendedMintedBytes(now, machine, pid, counter)) == pid
    ensures Counter(IntendedMintedBytes(now, machine, pid, counter)) == counter
  {
    var b := IntendedMintedBytes(now, machine, pid, counter);
    WordBytesRead(now, b);
  }

  /** Bytes 0-3 of `b`, if they are the four bytes `DataView.setUint32`
      writes for `t` (big-endian), read back as `t`. */
  lemma WordBytesRead(t: Word, b: Id)
    requires b[0] == Store(t >> 24) && b[1] == Store(t >> 16)
    requires b[2] == Store(t >> 8) && b[3] == Store(t)
    ensures Timestamp(b) == t
  {
  }

  /** As written, two counters that differ only in their middle byte give
      the same ID: counters 1 and 0x101 here. */
  lemma MintedCounterCollision(now: Word, machine: seq<Byte>, pid: Word)
    requires |machine| == 3
    ensures MintedBytes(now, machine, pid, 0x1) == MintedBytes(now, machine, pid, 0x101)
  {
  }

  /** As written, counter `c` and counter `c + 0x100` give the same ID
      unless a multiple of 0x10000 lies between them (which changes byte 9):
      within one second, the 257th ID a process mints repeats the first
      unless the counter passes such a multiple in between. */
  lemma MintedCounterRepeats(now: Word, machine: seq<Byte>, pid: Word, c: Word)
    requires |machine| == 3 && c <= 0xFF_FFFF && c & 0xFFFF < 0xFF00
    ensures MintedBytes(now, machine, pid, c) == MintedBytes(now, machine, pid, c + 0x100)
  {
  }

  /** As intended, distinct counters give distinct IDs, whatever the other
      fields are. */
  lemma IntendedMintedInjective(now: Word, machine: seq<Byte>, pid: Word, c: Word, c': Word)
    requires |machine| == 3 && pid < 0x1_0000 && c <= 0xFF_FFFF && c' <= 0xFF_FFFF
    requires IntendedMintedBytes(now, machine, pid, c) == IntendedMintedBytes(now, machine, pid, c')
    ensures c == c'
  {
    IntendedMintedFields(now, machine, pid, c);
    IntendedMintedFields(now, machine, pid, c');
  }

  /** Two IDs minted one after the other differ, whatever their timestamps:
      the counter's low byte, stored in byte 11, changes at every step. */
  lemma ConsecutiveMintsDiffer(now: Word, now': Word, machine: seq<Byte>, pid: Word, c: Word)
    requires |machine| == 3 && c <= 0xFF_FFFF
    ensures MintedBytes(now, machine, pid, c)[11]
      != MintedBytes(now', machine, pid, NextCounter(c))[11]
  {
  }

  /** A minted ID is not the zero ID once the clock is past the epoch. */
  lemma MintedNotZero(now: Word, machine: seq<Byte>, pid: Word, counter: Word)
    requires |machine| == 3 && now != 0
    ensures !IsZero(MintedBytes(now, machine, pid, counter))
  {
    var b := MintedBytes(now, machine, pid, counter);
    WordBytesRead(now, b);
  }
}
