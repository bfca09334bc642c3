/** Offset-based reads of one unchanged text: `device_read` of chardev/rdonly/chardev.c, which
    rewinds at the end, and `configread` of practice/myconfig/myconfig.c, which does not. */
module ChunkedRead {
  import opened Word

  datatype Chunk = Chunk(bytes: seq<byte>, off: nat)

  function CharRead(text: seq<byte>, off: nat, length: nat): Chunk
    requires off <= |text|
  {
    if off == |text| then Chunk([], 0)
    else var n := Min(length, |text| - off); Chunk(text[off..off + n], off + n)
  }

  function ConfigRead(text: seq<byte>, off: nat, count: nat): Chunk {
    if off >= |text| then Chunk([], off)
    else var n := Min(count, |text| - off); Chunk(text[off..off + n], off + n)
  }

  /** An open config file: the offset lives with the file, the text is formatted anew each time. */
  class ConfigFile {
    var off: nat

    constructor ()
      ensures off == 0
    {
      off := 0;
    }

    method Read(text: seq<byte>, count: nat) returns (bytes: seq<byte>)
      modifies this
      ensures Chunk(bytes, off) == ConfigRead(text, old(off), count)
      ensures bytes == [] <==> count == 0 || old(off) >= |text|
    {
      if off >= |text| { return []; }
      var n := count;
      if n > |text| - off { n := |text| - off; }
      bytes := text[off..off + n];
      off := off + n;
    }
  }

  /** All bytes returned so far, the file offset, and how often the end was reported. */
  datatype Session = Session(out: seq<byte>, off: nat, ends: nat)

  function CharSession(text: seq<byte>, sizes: seq<nat>): (s: Session)
    ensures s.off <= |text|
  {
    if sizes == [] then Session([], 0, 0)
    else
      var s := CharSession(text, sizes[..|sizes| - 1]);
      var c := CharRead(text, s.off, sizes[|sizes| - 1]);
      Session(s.out + c.bytes, c.off, s.ends + if s.off == |text| then 1 else 0)
  }

  function ConfigSession(text: seq<byte>, sizes: seq<nat>): Session {
    if sizes == [] then Session([], 0, 0)
    else
      var s := ConfigSession(text, sizes[..|sizes| - 1]);
      var c := ConfigRead(text, s.off, sizes[|sizes| - 1]);
      Session(s.out + c.bytes, c.off, s.ends + if s.off == |text| then 1 else 0)
  }

  function Total(sizes: seq<nat>): nat {
    if sizes == [] then 0 else Total(sizes[..|sizes| - 1]) + sizes[|sizes| - 1]
  }

  function Repeated(text: seq<byte>, n: nat): seq<byte> {
    if n == 0 then [] else Repeated(text, n - 1) + text
  }

  /** The character device delivers the text over and over, whatever the read sizes: once per
      end reported, and then the part up to the offset. */
  lemma {:induction false} CharDeviceRepeats(text: seq<byte>, sizes: seq<nat>)
    ensures var s := CharSession(text, sizes); s.out == Repeated(text, s.ends) + text[..s.off]
  {
    if sizes != [] {
      var init := sizes[..|sizes| - 1];
      CharDeviceRepeats(text, init);
      var s := CharSession(text, init);
      var c := CharRead(text, s.off, sizes[|sizes| - 1]);
      if s.off == |text| {
        assert text[..s.off] == text;
      } else {
        assert text[..s.off] + c.bytes == text[..c.off];
      }
    }
  }

  /** The config device delivers the text once: as much of it as has been asked for. */
  lemma {:induction false} ConfigDeviceDeliversOnce(text: seq<byte>, sizes: seq<nat>)
    ensures var s := ConfigSession(text, sizes);
            s.off == Min(Total(sizes), |text|) && s.out == text[..s.off]
  {
    if sizes != [] {
      var init := sizes[..|sizes| - 1];
      ConfigDeviceDeliversOnce(text, init);
      var s := ConfigSession(text, init);
      var c := ConfigRead(text, s.off, sizes[|sizes| - 1]);
      assert s.off < |text| ==> text[..s.off] + c.bytes == text[..c.off];
    }
  }

  /** With positive sizes, the character device first returns nothing after the whole text;
      then it starts over. */
  lemma {:induction false} CharEndIsWholeText(text: seq<byte>, sizes: seq<nat>, n: nat)
    requires 0 < n
    ensures var s := CharSession(text, sizes);
            CharRead(text, s.off, n).bytes == [] ==>
              CharRead(text, s.off, n).off == 0 && (s.ends == 0 ==> s.out == text)
  {
    CharDeviceRepeats(text, sizes);
    var s := CharSession(text, sizes);
    if CharRead(text, s.off, n).bytes == [] {
      assert s.off == |text|;
      assert text[..s.off] == text;
      assert s.ends == 0 ==> Repeated(text, s.ends) + text[..s.off] == text;
    }
  }

  /** With positive sizes, the config device first returns nothing after the whole text; then
      it keeps returning nothing. */
  lemma {:induction false} ConfigEndIsWholeText(text: seq<byte>, sizes: seq<nat>, n: nat, m: nat)
    requires 0 < n
    ensures var s := ConfigSession(text, sizes);
            var c := ConfigRead(text, s.off, n);
            c.bytes == [] ==> s.out == text && ConfigRead(text, c.off, m).bytes == []
  {
    ConfigDeviceDeliversOnce(text, sizes);
    assert text[..|text|] == text;
  }
}
