/** Byte strings and the growable read/write buffer of muduo_se/base/buffer.{h,cc}. */
module Bytes {
  datatype Option<+T> = None | Some(value: T)

  const CRLF: string := "\r\n"

  predicate CrlfAt(s: string, k: int) {
    0 <= k && k + 1 < |s| && s[k] == '\r' && s[k + 1] == '\n'
  }

  ghost predicate NoCrlf(s: string) {
    forall k :: !CrlfAt(s, k)
  }

  /** The first line end at or after `from`. */
  function FindCrlf(s: string, from: nat := 0): (r: Option<nat>)
    ensures r.Some? ==> from <= r.value && CrlfAt(s, r.value) && forall j | from <= j < r.value :: !CrlfAt(s, j)
    ensures r.None? ==> forall j | from <= j :: !CrlfAt(s, j)
    decreases |s| - from
  {
    if from + 1 >= |s| then None
    else if CrlfAt(s, from) then Some(from)
    else FindCrlf(s, from + 1)
  }

  /** Bytes that arrive later never move a line end that has been found. */
  lemma FindCrlfExtend(a: string, b: string)
    requires FindCrlf(a).Some?
    ensures FindCrlf(a + b) == FindCrlf(a)
  {
    var k := FindCrlf(a).value;
    assert CrlfAt(a + b, k);
    assert forall j | 0 <= j < k :: CrlfAt(a + b, j) == CrlfAt(a, j);
  }

  /** A line without a line end inside it is cut exactly at its own terminator. */
  lemma FindCrlfAfterLine(line: string, rest: string)
    requires NoCrlf(line)
    ensures FindCrlf(line + CRLF + rest) == Some(|line|)
    ensures (line + CRLF + rest)[..|line|] == line
    ensures (line + CRLF + rest)[|line| + 2..] == rest
  {
    var s := line + CRLF + rest;
    assert CrlfAt(s, |line|);
    forall j | 0 <= j < |line| ensures !CrlfAt(s, j) {
      assert !CrlfAt(line, j);
    }
  }

  /** Cutting at the first line end gives a line without one inside it. */
  lemma FirstLine(s: string)
    requires FindCrlf(s).Some?
    ensures var k := FindCrlf(s).value; NoCrlf(s[..k]) && s == s[..k] + CRLF + s[k + 2..]
  {
    var k := FindCrlf(s).value;
    forall j ensures !CrlfAt(s[..k], j) {
      assert CrlfAt(s[..k], j) ==> CrlfAt(s, j);
    }
  }

  function Max(a: int, b: int): int { if a > b then a else b }
}

module GrowableBuffer {
  import opened Bytes

  /** A vector of bytes with a read cursor and a write cursor. `peak` is the largest content
      length the buffer has ever had. */
  class Buffer {
    var buffer: array<char>
    var readIndex: int
    var writeIndex: int
    ghost const initial: nat
    ghost var peak: nat

    ghost predicate InBounds()
      reads this, buffer
    {
      0 <= readIndex <= writeIndex <= buffer.Length
    }

    ghost predicate Valid()
      reads this, buffer
    {
      && InBounds()
      && writeIndex - readIndex <= peak
      && buffer.Length <= Max(initial, 2 * peak)
    }

    /** The byte sequence that the buffer stands for. */
    ghost function Contents(): (s: string)
      requires InBounds()
      reads this, buffer
      ensures |s| == writeIndex - readIndex
    {
      buffer[readIndex..writeIndex]
    }

    constructor (len: nat)
      ensures Valid() && fresh(buffer)
      ensures Contents() == "" && buffer.Length == len && initial == len && peak == 0
    {
      buffer := new char[len];
      readIndex, writeIndex := 0, 0;
      initial, peak := len, 0;
    }

    function ReadSize(): int
      reads this
    {
      writeIndex - readIndex
    }

    function WriteSize(): int
      reads this, buffer
    {
      buffer.Length - writeIndex
    }

    /** Where the first line end is, counted from the read cursor. */
    method FindCRLF() returns (r: Option<nat>)
      requires Valid()
      ensures r == FindCrlf(Contents())
    {
      var k := readIndex;
      while k + 1 < writeIndex
        invariant readIndex <= k <= writeIndex
        invariant forall j | 0 <= j < k - readIndex :: !CrlfAt(Contents(), j)
      {
        if buffer[k] == '\r' && buffer[k + 1] == '\n' {
          assert CrlfAt(Contents(), k - readIndex);
          return Some(k - readIndex);
        }
        assert !CrlfAt(Contents(), k - readIndex);
        k := k + 1;
      }
      return None;
    }

    /** A copy of the first unread bytes. */
    method Peek(len: nat) returns (s: string)
      requires Valid() && len <= ReadSize()
      ensures s == Contents()[..len]
    {
      s := buffer[readIndex..readIndex + len];
    }

    method Retrieve(len: nat)
      requires Valid() && len <= ReadSize()
      modifies `readIndex, `writeIndex
      ensures Valid() && Contents() == old(Contents())[len..]
      ensures len == old(ReadSize()) ==> readIndex == writeIndex == 0
    {
      if len < ReadSize() {
        readIndex := readIndex + len;
      } else {
        readIndex, writeIndex := 0, 0;
      }
    }

    /** Moves the unread bytes to the front, left to right over the overlap. */
    method Swap()
      requires Valid()
      modifies `readIndex, `writeIndex, buffer
      ensures Valid() && Contents() == old(Contents()) && readIndex == 0
    {
      var n := ReadSize();
      var i := 0;
      while i < n
        invariant 0 <= i <= n
        modifies buffer
        invariant forall j | 0 <= j < i :: buffer[j] == old(Contents())[j]
        invariant forall k | readIndex + i <= k < writeIndex :: buffer[k] == old(buffer[k])
      {
        buffer[i] := buffer[readIndex + i];
        i := i + 1;
      }
      writeIndex := n;
      readIndex := 0;
      assert Contents() == old(Contents());
    }

    /** Grows the vector; the bytes keep their places. */
    method Resize(len: nat)
      requires InBounds()
      modifies `buffer
      ensures InBounds() && fresh(buffer) && buffer.Length == old(buffer.Length) + len + 1
      ensures Contents() == old(Contents())
    {
      var bigger := new char[buffer.Length + len + 1];
      forall i | 0 <= i < buffer.Length {
        bigger[i] := buffer[i];
      }
      buffer := bigger;
      assert Contents() == old(Contents());
    }

    /** Makes room for `len` bytes by compacting when that is enough and by growing when it is not. */
    method MakeRoom(len: nat)
      requires Valid()
      modifies this, buffer
      ensures Valid() && (buffer == old(buffer) || fresh(buffer))
      ensures Contents() == old(Contents()) && len <= WriteSize()
      ensures peak == Max(old(peak), |Contents()| + len)
      ensures buffer.Length == Capacity(old(buffer.Length), |old(Contents())|, len)
      ensures |old(Contents())| + len <= old(buffer.Length) ==> buffer == old(buffer)
    {
      peak := Max(peak, ReadSize() + len);
      if WriteSize() < len <= WriteSize() + readIndex {
        Swap();
      } else if len > WriteSize() + readIndex {
        Resize(len);
      }
    }

    /** Appending is concatenation, whether it writes in place, compacts or grows. */
    method Append(data: string)
      requires Valid()
      modifies this, buffer
      ensures Valid() && (buffer == old(buffer) || fresh(buffer))
      ensures Contents() == old(Contents()) + data
      ensures peak == Max(old(peak), |Contents()|)
      ensures buffer.Length == Capacity(old(buffer.Length), |old(Contents())|, |data|)
      ensures |old(Contents())| + |data| <= old(buffer.Length) ==> buffer == old(buffer)
    {
      MakeRoom(|data|);
      Fill(data);
    }

    /** Copies bytes into the free part without moving a cursor. */
    method Store(data: string)
      requires InBounds() && |data| <= WriteSize()
      modifies buffer
      ensures forall i | 0 <= i < writeIndex :: buffer[i] == old(buffer[i])
      ensures buffer[writeIndex..writeIndex + |data|] == data
    {
      forall i | 0 <= i < |data| {
        buffer[writeIndex + i] := data[i];
      }
    }

    /** readv into the free part and a 1024-byte spill area. `n` is its result and `delivered` the bytes
        it delivered. After the spill the code appends `n` bytes of the spill area, not the `n - free`
        bytes delivered there: `residue` is what the memory behind them holds, zero up to 1024 bytes. */
    method Read(n: int, delivered: string, residue: string)
      requires Valid()
      requires (n == -1 && delivered == "") || n == |delivered| <= WriteSize() + 1024
      requires n > WriteSize() ==> |residue| == WriteSize()
      requires n > WriteSize() ==> forall j | 0 <= j < |residue| && n - WriteSize() + j < 1024 :: residue[j] == '\0'
      modifies this, buffer
      ensures buffer == old(buffer) || fresh(buffer)
      ensures n >= 0 ==> Valid() && Contents() == old(Contents()) + delivered + (if n <= old(WriteSize()) then "" else residue)
      ensures n >= 0 ==> (Contents() == old(Contents()) + delivered <==> n <= old(WriteSize()) || old(WriteSize()) == 0)
      ensures n == -1 ==> (Valid() <==> old(Contents()) != "")
      ensures n == -1 && old(Contents()) != "" ==> Contents() == old(Contents())[..old(ReadSize()) - 1]
    {
      if n <= WriteSize() {
        Fill(delivered);
        if n == -1 {
          ghost var kept := Contents();
          writeIndex := writeIndex - 1;
          assert kept != "" ==> Contents() == kept[..|kept| - 1];
        }
      } else {
        Spill(n, delivered, residue);
        assert |Contents()| == |old(Contents())| + |delivered| + |residue|;
      }
    }

    /** The spill path: the free part is filled, and `n` bytes of the spill area are appended to it. */
    method Spill(n: int, delivered: string, residue: string)
      requires Valid() && n == |delivered| > WriteSize() && |residue| == WriteSize()
      modifies this, buffer
      ensures Valid() && (buffer == old(buffer) || fresh(buffer))
      ensures Contents() == old(Contents()) + delivered + residue
    {
      ghost var free := WriteSize();
      var temp := delivered[WriteSize()..] + residue;
      Fill(delivered[..WriteSize()]);
      Append(temp[..n - WriteSize()]);
      Spilled(old(Contents()), delivered, residue, free);
      assert temp[..n] == temp;
    }

    /** Bytes put directly into the free part. */
    method Fill(data: string)
      requires Valid() && |data| <= WriteSize()
      modifies `writeIndex, `peak, buffer
      ensures Valid() && Contents() == old(Contents()) + data && writeIndex == old(writeIndex) + |data|
      ensures peak == Max(old(peak), |Contents()|)
    {
      ghost var before := Contents();
      Store(data);
      assert buffer[readIndex..writeIndex] == before;
      assert buffer[readIndex..writeIndex + |data|] == before + buffer[writeIndex..writeIndex + |data|];
      writeIndex := writeIndex + |data|;
      peak := Max(peak, writeIndex - readIndex);
    }

    /** write(2) of the unread bytes with result `n`. A failed write moves the read cursor back over a
        byte that was sent before. */
    method Write(n: int)
      requires Valid() && -1 <= n <= ReadSize()
      modifies `readIndex, `peak
      ensures n >= 0 ==> Valid() && Contents() == old(Contents())[n..]
      ensures n == -1 ==> (Valid() <==> old(readIndex) > 0)
      ensures n == -1 && old(readIndex) > 0 ==> Contents() == [buffer[old(readIndex) - 1]] + old(Contents())
    {
      readIndex := readIndex + n;
      peak := Max(peak, writeIndex - readIndex);
    }
  }

  lemma Spilled(before: string, delivered: string, residue: string, free: nat)
    requires free <= |delivered|
    ensures before + delivered[..free] + (delivered[free..] + residue) == before + delivered + residue
  {
    assert delivered[..free] + delivered[free..] == delivered;
  }

  /** The capacity rule behind `Buffer.Valid`: one growth step never exceeds twice the content it is for. */
  function Capacity(size: nat, content: nat, len: nat): nat {
    if content + len > size then size + len + 1 else size
  }

  /** Over any run of appends and retrievals (negative entries), the vector stays within twice the peak. */
  function RunCapacity(size: nat, content: nat, moves: seq<int>): (nat, nat)
    decreases |moves|
  {
    if moves == [] then (size, content)
    else if moves[0] < 0 then
      var (s, p) := RunCapacity(size, Max(0, content + moves[0]), moves[1..]);
      (s, Max(p, content))
    else
      var (s, p) := RunCapacity(Capacity(size, content, moves[0]), content + moves[0], moves[1..]);
      (s, Max(p, content))
  }

  lemma {:induction false} CapacityBound(size: nat, content: nat, moves: seq<int>)
    requires content <= size
    ensures var (s, p) := RunCapacity(size, content, moves); content <= p && s <= Max(size, 2 * p)
    decreases |moves|
  {
    if moves != [] {
      if moves[0] < 0 {
        CapacityBound(size, Max(0, content + moves[0]), moves[1..]);
      } else {
        CapacityBound(Capacity(size, content, moves[0]), content + moves[0], moves[1..]);
      }
    }
  }
}
