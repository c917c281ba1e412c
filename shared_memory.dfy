/**
 * The shared memory the relay and the injected native agent exchange packets
 * through: four `Buffer` records (a 32-bit `Length`, a 32-bit `Start` and a data
 * area of SHARED_BUFF_SIZE bytes) followed by the title string, all at fixed
 * offsets from one base address.
 */
module SharedMemory {
  import opened Common

  /** Bytes in the data area of one region. */
  const SHARED_BUFF_SIZE: int := 524288

  /** Size of one `Buffer` record: the two header words and the data area. */
  const BUFFER_RECORD_SIZE: int := 8 + SHARED_BUFF_SIZE

  /** The five areas laid out from the shared base address. */
  datatype Area = InRecv | OutRecv | InSend | OutSend | TitleStr

  /** Byte offset of an area from the shared base address. */
  function Offset(a: Area): int
  {
    match a
    case InRecv => 0
    case OutRecv => BUFFER_RECORD_SIZE
    case InSend => BUFFER_RECORD_SIZE * 2
    case OutSend => BUFFER_RECORD_SIZE * 3
    case TitleStr => BUFFER_RECORD_SIZE * 4
  }

  /**
   * No two of the four regions overlap, and the title string starts after all of
   * them: this is what lets the model give every region its own array.
   */
  lemma RegionsDisjoint(a: Area, b: Area)
    requires a != TitleStr && b != TitleStr && a != b
    ensures Offset(a) + BUFFER_RECORD_SIZE <= Offset(b) || Offset(b) + BUFFER_RECORD_SIZE <= Offset(a)
    ensures Offset(a) + BUFFER_RECORD_SIZE <= Offset(TitleStr)
  {
  }

  /**
   * What a region holds as far as its readers are concerned: where its unread
   * bytes start and what they are.
   */
  datatype RegionView = RegionView(start: int, pending: seq<byte>)

  /** The region's unread bytes stay inside its data area. */
  predicate Fits(r: RegionView) {
    0 <= r.start && r.start + |r.pending| <= SHARED_BUFF_SIZE
  }

  /** The region after a producer has written `data` at `start + length`. */
  function Appended(r: RegionView, data: seq<byte>): RegionView {
    r.(pending := r.pending + data)
  }

  /**
   * One `Buffer` record. The producer writes at `Start + Length` and grows
   * `Length`; the consumer advances `Start` and shrinks `Length`.
   */
  class Region {
    var Length: int
    var Start: int
    const Buff: array<byte>
    /** The unread bytes `Buff[Start..Start + Length]`, kept alongside the array. */
    ghost var Pending: seq<byte>

    ghost predicate Valid()
      reads this, Buff
    {
      Buff.Length == SHARED_BUFF_SIZE &&
      0 <= Start && 0 <= Length && Start + Length <= SHARED_BUFF_SIZE &&
      |Pending| == Length && forall i :: 0 <= i < Length ==> Buff[Start + i] == Pending[i]
    }

    ghost function View(): (v: RegionView)
      reads this
    {
      RegionView(Start, Pending)
    }

    constructor ()
      ensures Valid() && fresh(Buff)
      ensures View() == RegionView(0, [])
    {
      Buff := new byte[SHARED_BUFF_SIZE];
      Start, Length := 0, 0;
      Pending := [];
    }

    /** The unread bytes fit the data area and number `Length`. */
    lemma ViewFits()
      requires Valid()
      ensures Fits(View()) && |View().pending| == Length
    {
    }

    /**
     * `CopyToBuffer`: copies `data` to `Start + Length` and grows `Length` by
     * its size. The source's overflow test is commented out, so the room the
     * copy needs is a precondition here.
     */
    method CopyToBuffer(data: seq<byte>)
      requires Valid()
      requires Start + Length + |data| <= SHARED_BUFF_SIZE
      modifies this, Buff
      ensures Valid()
      ensures Length == old(Length) + |data| && Start == old(Start)
      ensures View() == Appended(old(View()), data)
    {
      var at := Start + Length;
      var i := 0;
      while i < |data|
        invariant 0 <= i <= |data| && Length == old(Length) && Start == old(Start) && Pending == old(Pending)
        invariant forall k :: Start <= k < at ==> Buff[k] == old(Buff[k])
        invariant forall k :: 0 <= k < i ==> Buff[at + k] == data[k]
      {
        Buff[at + i] := data[i];
        i := i + 1;
      }
      Length := Length + |data|;
      Pending := Pending + data;
    }

    /** The consumer's side: `Start += len; Length -= len`. */
    method Advance(len: int)
      requires Valid() && 0 < len <= Length
      modifies this
      ensures Valid() && Length == old(Length) - len
      ensures View() == RegionView(old(Start) + len, old(Pending)[len..])
    {
      Start, Length := Start + len, Length - len;
      Pending := Pending[len..];
    }

    /** The first `n` unread bytes, copied out of the data area. */
    method Peek(n: int) returns (bytes: seq<byte>)
      requires Valid() && 0 <= n <= Length
      ensures bytes == Pending[..n]
    {
      bytes := Buff[Start..Start + n];
    }
  }
}
