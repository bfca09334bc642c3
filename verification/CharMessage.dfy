/** The message buffer of chardev/ioctl/charioctl.c: 81 bytes, the last of which stays zero,
    written by `write` and by the set-message ioctl, read back whole, in chunks, or byte by
    byte. A user string is a NUL-free sequence; in user memory a zero byte follows it.
 */
module CharMessage {
  import opened Word
  import opened ChunkedRead
  import opened Wrappers

  const BUF_LEN: nat := 80

  /** The C string at the start of a buffer. */
  function Text(buf: seq<byte>): (t: seq<byte>)
    ensures |t| <= |buf|
    ensures forall i :: 0 <= i < |t| ==> t[i] == buf[i] && t[i] != 0
    ensures |t| < |buf| ==> buf[|t|] == 0
  {
    if buf == [] || buf[0] == 0 then [] else [buf[0]] + Text(buf[1..])
  }

  predicate NulFree(s: seq<byte>) { 0 !in s }

  /** A C string is determined by where its first zero is. */
  lemma {:induction false} TextIs(buf: seq<byte>, s: seq<byte>)
    requires NulFree(s) && s <= buf && (|s| < |buf| ==> buf[|s|] == 0)
    ensures Text(buf) == s
  {
    if s != [] {
      TextIs(buf[1..], s[1..]);
    }
  }

  lemma {:induction false} TextTail(buf: seq<byte>, off: nat)
    requires off <= |Text(buf)|
    ensures Text(buf[off..]) == Text(buf)[off..]
  {
    TextIs(buf[off..], Text(buf)[off..]);
  }

  /** Nonzero bytes copied until `length` of them or a zero is reached are the text. */
  lemma CopiedText(buf: seq<byte>, bytes: seq<byte>, length: nat)
    requires bytes <= buf && NulFree(bytes) && |bytes| <= length && |bytes| < |buf|
    requires |bytes| == length || buf[|bytes|] == 0
    ensures bytes == Text(buf)[..Min(length, |Text(buf)|)]
  {
  }

  /** A message buffer: 81 bytes, the last one zero. */
  predicate Terminated(buf: seq<byte>) { |buf| == BUF_LEN + 1 && buf[BUF_LEN] == 0 }

  /** What `device_read` does at any offset: nothing checks the offset, and None stands for an
      access outside the buffer. From inside, the zero at the end keeps the copy inside. */
  function ReadOutcome(buf: seq<byte>, off: nat, length: nat): (r: Option<Chunk>)
    requires Terminated(buf)
    ensures r == None <==> off > BUF_LEN
    ensures r.Some? ==> r.value.off <= BUF_LEN && |r.value.bytes| <= length
  {
    if off > BUF_LEN then None
    else if buf[off] == 0 then Some(Chunk([], 0))
    else
      var rest := Text(buf[off..]);
      var n := Min(length, |rest|);
      Some(Chunk(rest[..n], off + n))
  }

  lemma ChunkOfTail(t: seq<byte>, rest: seq<byte>, off: nat, length: nat)
    requires off < |t| && rest == t[off..]
    ensures var n := Min(length, |rest|); Chunk(rest[..n], off + n) == CharRead(t, off, length)
  {
  }

  lemma TextEnds(buf: seq<byte>)
    requires Terminated(buf)
    ensures |Text(buf)| <= BUF_LEN && buf[|Text(buf)|] == 0
  {
  }

  lemma ReadBeforeEnd(buf: seq<byte>, t: seq<byte>, off: nat, length: nat)
    requires Terminated(buf) && off < |t| <= BUF_LEN && buf[off] != 0 && Text(buf[off..]) == t[off..]
    ensures ReadOutcome(buf, off, length) == Some(CharRead(t, off, length))
  {
    ChunkOfTail(t, t[off..], off, length);
  }

  /** Inside the text, a read is a chunked read of the text. */
  lemma ReadInsideText(buf: seq<byte>, off: nat, length: nat)
    requires Terminated(buf) && off <= |Text(buf)|
    ensures ReadOutcome(buf, off, length) == Some(CharRead(Text(buf), off, length))
  {
    TextEnds(buf);
    if off < |Text(buf)| {
      assert buf[off] == Text(buf)[off];
      TextTail(buf, off);
      ReadBeforeEnd(buf, Text(buf), off, length);
    }
  }

  /** At any offset inside the buffer a read returns the bytes that stand there up to the next
      zero, or as many as asked for; the offset moves past them, or back to the start if there
      are none. */
  lemma ReadTakesRun(buf: seq<byte>, off: nat, length: nat)
    requires Terminated(buf) && off <= BUF_LEN
    ensures ReadOutcome(buf, off, length).Some?
    ensures var Chunk(bytes, next) := ReadOutcome(buf, off, length).value;
            && NulFree(bytes) && |bytes| <= length && off + |bytes| <= BUF_LEN
            && bytes == buf[off..off + |bytes|]
            && (|bytes| == length || buf[off + |bytes|] == 0)
            && next == if buf[off] == 0 then 0 else off + |bytes|
  {
    var rest := Text(buf[off..]);
    assert |rest| < |buf[off..]|;
    if buf[off] != 0 {
      var n := Min(length, |rest|);
      assert forall i :: 0 <= i < n ==> rest[i] == buf[off..][i];
    }
  }

  /** The offset after a sequence of reads from the start, each of its own length and finding
      its own buffer contents; None once an access has gone outside. */
  function OffsetAfter(bufs: seq<seq<byte>>, lengths: seq<nat>): Option<nat>
    requires |bufs| == |lengths| && forall b :: b in bufs ==> Terminated(b)
  {
    if bufs == [] then Some(0)
    else
      var n := |bufs| - 1;
      match OffsetAfter(bufs[..n], lengths[..n])
      case None => None
      case Some(off) =>
        match ReadOutcome(bufs[n], off, lengths[n])
        case None => None
        case Some(c) => Some(c.off)
  }

  /** Plain reads never leave the buffer, however the message is rewritten between them. */
  lemma {:induction false} SequentialReadsStayInside(bufs: seq<seq<byte>>, lengths: seq<nat>)
    requires |bufs| == |lengths| && forall b :: b in bufs ==> Terminated(b)
    ensures OffsetAfter(bufs, lengths).Some? && OffsetAfter(bufs, lengths).value <= BUF_LEN
  {
    if bufs != [] {
      SequentialReadsStayInside(bufs[..|bufs| - 1], lengths[..|bufs| - 1]);
    }
  }

  /** A read at offset 81 does leave it, whatever the buffer holds. */
  lemma PositionedReadCanLeave(buf: seq<byte>, length: nat)
    requires Terminated(buf)
    ensures ReadOutcome(buf, BUF_LEN + 1, length) == None
  {
  }

  /** How many bytes the set-message loop ends up copying for a string of n characters: it
      stops one past the terminator, at once on an empty string, and at 80 in any case. */
  function SetLength(n: nat): nat { if n == 0 then 0 else Min(n + 1, BUF_LEN) }

  /** The buffer after set-message. */
  function AfterSet(buf: seq<byte>, s: seq<byte>): seq<byte>
    requires |buf| == BUF_LEN + 1
  {
    (s + [0])[..SetLength(|s|)] + buf[SetLength(|s|)..]
  }

  /** The sized part of the user's string, stored over the buffer. */
  lemma StoredIsAfterSet(buf: seq<byte>, s: seq<byte>, src: seq<byte>)
    requires |buf| == BUF_LEN + 1 && src == (s + [0])[..SetLength(|s|)]
    ensures |src| <= BUF_LEN && src[..Min(|src|, BUF_LEN)] + buf[Min(|src|, BUF_LEN)..] == AfterSet(buf, s)
  {
    assert src[..|src|] == src;
  }

  /** What set-message makes of the text, for any earlier contents. */
  lemma TextAfterSet(buf: seq<byte>, s: seq<byte>)
    requires Terminated(buf) && NulFree(s)
    ensures AfterSet(buf, s)[BUF_LEN] == 0
    ensures Text(AfterSet(buf, s)) == if s == [] then Text(buf) else s[..Min(|s|, BUF_LEN)]
  {
    if s == [] {
      assert AfterSet(buf, s) == buf;
    } else {
      TextIs(AfterSet(buf, s), s[..Min(|s|, BUF_LEN)]);
    }
  }

  lemma TailAfterSet(buf: seq<byte>, s: seq<byte>, off: nat)
    requires |buf| == BUF_LEN + 1 && SetLength(|s|) <= off <= |buf|
    ensures AfterSet(buf, s)[off..] == buf[off..]
  {
  }

  lemma ReadSeesTail(a: seq<byte>, b: seq<byte>, off: nat, length: nat)
    requires Terminated(a) && Terminated(b) && off <= BUF_LEN && a[off..] == b[off..]
    ensures ReadOutcome(a, off, length) == ReadOutcome(b, off, length)
  {
    assert a[off] == a[off..][0] && b[off] == b[off..][0];
  }

  /** A reader past the end of a shorter message set meanwhile goes on in what is left of the
      longer one. */
  lemma ReadContinuesInOldMessage(buf: seq<byte>, s: seq<byte>, off: nat, length: nat)
    requires Terminated(buf) && NulFree(s) && |s| < off <= |Text(buf)|
    ensures ReadOutcome(AfterSet(buf, s), off, length) == Some(CharRead(Text(buf), off, length))
  {
    TextAfterSet(buf, s);
    TailAfterSet(buf, s, off);
    ReadSeesTail(AfterSet(buf, s), buf, off, length);
    ReadInsideText(buf, off, length);
  }

  /** Set-message followed by get-message returns the string exactly when it has 1 to 80
      characters; the empty string is kept only if the message was empty already. */
  lemma SetIsKeptIff(buf: seq<byte>, s: seq<byte>)
    requires Terminated(buf) && NulFree(s)
    ensures Text(AfterSet(buf, s)) == s <==> 1 <= |s| <= BUF_LEN || (s == [] && Text(buf) == [])
  {
    TextAfterSet(buf, s);
  }

  /** A concrete message the empty string fails to replace. */
  lemma EmptyMessageIsIgnored()
    ensures var buf := [65] + seq(80, _ => 0); Text(AfterSet(buf, [])) == [65]
  {
    var buf: seq<byte> := [65] + seq(80, _ => 0);
    TextIs(buf, [65]);
    TextAfterSet(buf, []);
  }

  datatype Result = Success(text: seq<byte>) | Busy

  class Device {
    const message: array<byte>
    var busy: bool

    /** The last byte is always zero, whatever was written: a read that starts inside the
        buffer stays inside. */
    ghost predicate Valid()
      reads this, message
    {
      Terminated(message[..])
    }

    ghost function Message(): seq<byte>
      requires Valid()
      reads this, message
    {
      Text(message[..])
    }

    constructor ()
      ensures Valid() && fresh(message) && Message() == [] && !busy
    {
      message := new byte[BUF_LEN + 1](_ => 0);
      busy := false;
    }

    /** The copy loop of `device_read` from a position inside the text. */
    method CopyOut(off: nat, length: nat) returns (bytes: seq<byte>)
      requires Valid() && off <= BUF_LEN
      ensures var rest := Text(message[off..]); bytes == rest[..Min(length, |rest|)]
    {
      bytes := [];
      var ptr, left := off, length;
      while left > 0 && message[ptr] != 0
        invariant ptr == off + |bytes| <= BUF_LEN && left == length - |bytes|
        invariant forall k :: 0 <= k < |bytes| ==> bytes[k] == message[off + k] && bytes[k] != 0
        decreases left
      {
        bytes := bytes + [message[ptr]];
        ptr, left := ptr + 1, left - 1;
      }
      CopiedText(message[off..], bytes, length);
    }

    method ReadAt(off: nat, length: nat) returns (r: Option<Chunk>)
      requires Valid()
      ensures r == ReadOutcome(message[..], off, length)
    {
      if off > BUF_LEN {
        return None;
      }
      if message[off] == 0 {
        return Some(Chunk([], 0));
      }
      assert message[..][off..] == message[off..];
      var bytes := CopyOut(off, length);
      r := Some(Chunk(bytes, off + |bytes|));
    }

    /** `device_read` at any offset. Inside the text it is a chunked read of the message; at the
        end of the text the offset is reset and nothing is returned. */
    method Read(off: nat, length: nat) returns (r: Option<Chunk>)
      requires Valid()
      ensures r == ReadOutcome(message[..], off, length)
      ensures r == None <==> off > BUF_LEN
      ensures off <= |Message()| ==> r == Some(CharRead(Message(), off, length))
    {
      if off <= |Message()| {
        ReadInsideText(message[..], off, length);
      }
      r := ReadAt(off, length);
    }

    /** IOCTL_GET_NTH_BYTE: the byte asked for, or an access outside the buffer. */
    method NthByte(i: nat) returns (r: Option<byte>)
      requires Valid()
      ensures r == None <==> i > BUF_LEN
      ensures i <= |Message()| ==> r == Some(if i < |Message()| then Message()[i] else 0)
    {
      if i > BUF_LEN {
        return None;
      }
      r := Some(message[..][i]);
    }

    /** `device_write` of a user buffer. */
    method Write(src: seq<byte>) returns (n: nat)
      requires Valid()
      modifies message
      ensures Valid() && n == Min(|src|, BUF_LEN)
      ensures message[..] == src[..n] + old(message[..])[n..]
    {
      n := 0;
      while n < |src| && n < BUF_LEN
        invariant n <= Min(|src|, BUF_LEN)
        invariant forall c :: 0 <= c <= BUF_LEN ==> message[c] == if c < n then src[c] else old(message[c])
      {
        message[n] := src[n];
        n := n + 1;
      }
    }

    /** The loop that sizes the user's string before it is copied. */
    method Measure(s: seq<byte>) returns (i: nat)
      requires NulFree(s)
      ensures i == SetLength(|s|)
    {
      var user: seq<byte> := s + [0];
      var ch := user[0];
      i := 0;
      while ch != 0 && i < BUF_LEN
        invariant i <= Min(|s| + 1, BUF_LEN)
        invariant ch == if i == 0 then user[0] else user[i - 1]
        invariant i == 0 || 0 < |s|
        decreases BUF_LEN - i
      {
        ch := user[i];
        i := i + 1;
      }
    }

    /** IOCTL_SET_MSG. */
    method SetMessage(s: seq<byte>) returns (r: Result)
      requires Valid() && NulFree(s)
      modifies this, message
      ensures Valid() && busy == old(busy)
      ensures old(busy) ==> r == Busy && message[..] == old(message[..])
      ensures !old(busy) ==>
                && r.Success? && message[..] == AfterSet(old(message[..]), s)
                && Message() == if s == [] then old(Message()) else s[..Min(|s|, BUF_LEN)]
    {
      if busy { return Busy; }
      busy := true;
      TextAfterSet(message[..], s);
      var i := Measure(s);
      StoredIsAfterSet(message[..], s, (s + [0])[..i]);
      var n := Write((s + [0])[..i]);
      busy := false;
      r := Success([]);
    }

    /** IOCTL_GET_MSG: what lands in the user's buffer, up to the terminator put behind it. */
    method GetMessage() returns (r: Result)
      requires Valid()
      modifies this
      ensures Valid() && busy == old(busy)
      ensures r == if old(busy) then Busy else Success(Message())
    {
      if busy { return Busy; }
      busy := true;
      var chunk := Read(0, 99);
      busy := false;
      r := Success(chunk.value.bytes);
    }

    /** IOCTL_GET_NTH_BYTE, asked for 0, 1, 2, ... until it answers zero. */
    method ReadByteByByte() returns (text: seq<byte>)
      requires Valid()
      ensures text == Message()
    {
      text := [];
      var c := NthByte(0);
      while c != Some(0)
        invariant |text| <= |Message()| && text == Message()[..|text|]
        invariant c == Some(if |text| < |Message()| then Message()[|text|] else 0)
        decreases |Message()| - |text|
      {
        text := text + [c.value];
        c := NthByte(|text|);
      }
    }
  }
}
