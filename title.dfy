/**
 * The custom title string the native agent shows in the client's title bar
 * (`SetTitleStr`): ASCII bytes at the title offset of the shared memory,
 * at most 511 of them, followed by a zero byte; the same string twice in a
 * row is written only once.
 */
module TitleBar {
  import opened Common

  /** Bytes reserved for the title: 511 characters and the terminator. */
  const TITLE_CAPACITY: int := 512

  /** `Encoding.ASCII`: characters outside 0..127 become `?`. */
  function AsciiByte(c: char): (b: byte)
    ensures (c as int) < 0x80 ==> b as int == c as int
    ensures (c as int) >= 0x80 ==> b == 0x3F
  {
    if (c as int) < 0x80 then (c as int) as byte else 0x3F
  }

  function AsciiBytes(s: string): (r: seq<byte>)
    ensures |r| == |s|
    ensures forall i :: 0 <= i < |s| ==> r[i] == AsciiByte(s[i])
  {
    if s == [] then [] else [AsciiByte(s[0])] + AsciiBytes(s[1..])
  }

  /** What the agent shows: the title area read as a C string, up to its first zero byte. */
  function CString(area: seq<byte>): (r: seq<byte>)
    ensures |r| <= |area|
    ensures forall i :: 0 <= i < |r| ==> r[i] != 0 && r[i] == area[i]
    ensures |r| < |area| ==> area[|r|] == 0
  {
    if area == [] || area[0] == 0 then [] else [area[0]] + CString(area[1..])
  }

  /** The bytes `SetTitleStr` copies: the ASCII form of `s`, cut to 511. */
  function TitleBytes(s: string): (r: seq<byte>)
    ensures |r| == if |s| >= TITLE_CAPACITY then TITLE_CAPACITY - 1 else |s|
    ensures r == AsciiBytes(s)[..|r|]
  {
    var copy := AsciiBytes(s);
    if |copy| >= TITLE_CAPACITY then copy[..TITLE_CAPACITY - 1] else copy
  }

  class Title {
    /** `m_LastStr`: the string last written. */
    var lastStr: string
    /** The title area of the shared memory. */
    const area: array<byte>
    /** How many WM_CUSTOMTITLE notifications were posted to the client window. */
    var notifications: nat

    ghost predicate Valid()
      reads this
    {
      area.Length >= TITLE_CAPACITY
    }

    /** The area at mapping time; `m_LastStr` starts as the empty string. */
    constructor (area: array<byte>)
      requires area.Length >= TITLE_CAPACITY
      ensures Valid() && this.area == area && lastStr == "" && notifications == 0
    {
      this.area := area;
      lastStr := "";
      notifications := 0;
    }

    /**
     * `SetTitleStr`: nothing happens for the string last written; otherwise
     * its ASCII bytes, cut to 511, are copied to the area, a zero byte follows
     * them, and the client window is notified.
     */
    method SetTitleStr(s: string)
      requires Valid()
      modifies this, area
      ensures Valid()
      ensures s == old(lastStr) ==> unchanged(this) && unchanged(area)
      ensures s != old(lastStr) ==>
        lastStr == s && notifications == old(notifications) + 1 &&
        area[..|TitleBytes(s)| + 1] == TitleBytes(s) + [0] &&
        area[|TitleBytes(s)| + 1..] == old(area[|TitleBytes(s)| + 1..])
    {
      if lastStr == s {
        return;
      }
      lastStr := s;
      var copy := AsciiBytes(s);
      var clen := |copy|;
      if clen >= TITLE_CAPACITY {
        clen := TITLE_CAPACITY - 1;
      }
      var i := 0;
      while i < clen
        invariant 0 <= i <= clen
        invariant lastStr == s && notifications == old(notifications)
        invariant forall k :: 0 <= k < i ==> area[k] == copy[k]
        invariant forall k :: i <= k < area.Length ==> area[k] == old(area[k])
      {
        area[i] := copy[i];
        i := i + 1;
      }
      area[clen] := 0;
      notifications := notifications + 1;
      assert area[..clen] == copy[..clen];
      assert area[..clen + 1] == area[..clen] + [0];
    }
  }

  /** Only the NUL character encodes as a zero byte. */
  lemma AsciiNonZero(c: char)
    requires c != '\0'
    ensures AsciiByte(c) != 0
  {
  }

  /** An area starting with `t + [0]` holds `t` in its first bytes and a zero after them. */
  lemma WrittenPrefix(area: seq<byte>, t: seq<byte>)
    requires |area| > |t| && area[..|t| + 1] == t + [0]
    ensures forall i :: 0 <= i < |t| ==> area[i] == t[i]
    ensures area[|t|] == 0
  {
    assert forall i :: 0 <= i <= |t| ==> area[i] == area[..|t| + 1][i];
  }

  /**
   * What the agent reads back is the title's ASCII form cut to 511, as long as
   * the string holds no NUL character (one would end the title early).
   */
  lemma TitleReadsBack(s: string, area: seq<byte>)
    requires forall i :: 0 <= i < |s| ==> s[i] != '\0'
    requires |area| > |TitleBytes(s)| && area[..|TitleBytes(s)| + 1] == TitleBytes(s) + [0]
    ensures CString(area) == TitleBytes(s)
  {
    var t := TitleBytes(s);
    WrittenPrefix(area, t);
    forall i | 0 <= i < |t|
      ensures area[i] != 0
    {
      AsciiNonZero(s[i]);
    }
    CStringStopsAt(area, |t|);
    assert area[..|t|] == t;
  }

  /** The C string of an area whose first zero byte is at `n` is its first `n` bytes. */
  lemma {:induction false} CStringStopsAt(area: seq<byte>, n: int)
    requires 0 <= n < |area| && area[n] == 0
    requires forall i :: 0 <= i < n ==> area[i] != 0
    ensures CString(area) == area[..n]
  {
    if n > 0 {
      CStringStopsAt(area[1..], n - 1);
      assert area[..n] == [area[0]] + area[1..][..n - 1];
    }
  }

  /** A NUL character in the string ends the title early: only the part before it is read. */
  lemma TitleCutAtNul(s: string, area: seq<byte>, n: int)
    requires 0 <= n < |s| && n < TITLE_CAPACITY - 1 && s[n] == '\0'
    requires forall i :: 0 <= i < n ==> s[i] != '\0'
    requires |area| > |TitleBytes(s)| && area[..|TitleBytes(s)| + 1] == TitleBytes(s) + [0]
    ensures CString(area) == AsciiBytes(s[..n])
  {
    var t := TitleBytes(s);
    WrittenPrefix(area, t);
    forall i | 0 <= i < n
      ensures area[i] != 0
    {
      AsciiNonZero(s[i]);
    }
    CStringStopsAt(area, n);
    AsciiPrefix(s, n);
    assert area[..n] == AsciiBytes(s)[..n];
  }

  /** The ASCII form of a prefix is the prefix of the ASCII form. */
  lemma AsciiPrefix(s: string, n: int)
    requires 0 <= n <= |s|
    ensures AsciiBytes(s[..n]) == AsciiBytes(s)[..n]
  {
  }
}
