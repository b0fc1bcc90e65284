/**
 * The HID keystroke decoder of package barcodehid.
 *
 * A barcode scanner that emulates a USB keyboard emits one keyboard usage ID
 * (USB HID Usage Tables, section 10 "Keyboard/Keypad Page (0x07)") per
 * character and ends every barcode with the Enter usage ID 0x28. The device
 * is modelled as a byte sequence with a cursor.
 */
module BarcodeHid {
  import opened Wrappers

  /** One octet of the keystroke stream (Go's uint8). */
  newtype byte = x: int | 0 <= x < 256

  const KcA: byte := 0x04
  const KcZ: byte := 0x1d
  const AsciiZero: byte := 0x30 // '0'

  const KcOne: byte := 0x1e
  const KcZero: byte := 0x27
  const AsciiA: byte := 0x61 // 'a'

  const KcEnter: byte := 0x28

  /** The characters a barcode read from the device can consist of. */
  predicate IsLowerAlnum(c: char) {
    'a' <= c <= 'z' || '0' <= c <= '9'
  }

  /**
   * The character a key code contributes to a barcode, or None when the key
   * produces nothing. The byte arithmetic is that of Go's uint8; the newtype
   * proves that it never wraps around on the ranges where it is used.
   */
  function KeyChar(kc: byte): (r: Option<char>)
    ensures r.Some? <==> KcA <= kc <= KcZ || KcOne <= kc <= KcZero
    ensures r.Some? ==> IsLowerAlnum(r.value)
  {
    if KcA <= kc <= KcZ then
      Some((kc - KcA + AsciiA) as int as char)
    else if KcOne <= kc <= KcZero then
      // usage IDs run 1, 2, ..., 9, 0: rotate by one and reduce modulo 10
      Some(((kc - KcOne + 1) % 10 + AsciiZero) as int as char)
    else
      None
  }

  function Chars(c: Option<char>): string {
    if c.Some? then [c.value] else []
  }

  /**
   * The barcode the bytes of one frame (terminator removed) decode to: zero
   * bytes and unrecognised key codes contribute nothing, every other byte one
   * character, in order.
   */
  function Decode(data: seq<byte>): (code: string)
    ensures |code| <= |data|
  {
    if data == [] then ""
    else Decode(data[..|data| - 1]) + Chars(KeyChar(data[|data| - 1]))
  }

  /** A decoded barcode consists of lowercase letters and decimal digits only. */
  lemma {:induction false} DecodeIsLowerAlnum(data: seq<byte>)
    ensures forall i :: 0 <= i < |Decode(data)| ==> IsLowerAlnum(Decode(data)[i])
    decreases |data|
  {
    if data != [] {
      DecodeIsLowerAlnum(data[..|data| - 1]);
    }
  }

  /**
   * The key code a keyboard sends for a lowercase letter or a digit, written
   * as the usage table lists it: letters from 0x04, digits 1 to 9 from 0x1e,
   * and 0 last, at 0x27.
   */
  function KeyOf(c: char): (kc: byte)
    requires IsLowerAlnum(c)
    ensures KeyChar(kc) == Some(c)
  {
    if 'a' <= c <= 'z' then (c as int - 'a' as int + 0x04) as byte
    else if c == '0' then 0x27
    else (c as int - '1' as int + 0x1e) as byte
  }

  /** Every character the decoder produces comes from exactly one key code. */
  lemma KeyOfKeyChar(kc: byte)
    requires KeyChar(kc).Some?
    ensures KeyOf(KeyChar(kc).value) == kc
  {
  }

  /** Letters: 0x04..0x1d map one to one, in order, onto the alphabet. */
  lemma LetterKeys(kc: byte)
    requires KcA <= kc <= KcZ
    ensures KeyChar(kc) == Some("abcdefghijklmnopqrstuvwxyz"[kc as int - 4])
  {
  }

  /** Digits: 0x1e..0x26 are '1'..'9' and 0x27 is '0'. */
  lemma DigitKeys(kc: byte)
    requires KcOne <= kc <= KcZero
    ensures KeyChar(kc) == Some(if kc == KcZero then '0' else ('1' as int + (kc - KcOne) as int) as char)
  {
  }

  /** The key strokes a scanner sends for a barcode, without the terminator. */
  function Encode(s: string): (keys: seq<byte>)
    requires forall i :: 0 <= i < |s| ==> IsLowerAlnum(s[i])
    ensures |keys| == |s|
    ensures forall i :: 0 <= i < |keys| ==> keys[i] != KcEnter && keys[i] != 0
  {
    if s == [] then [] else Encode(s[..|s| - 1]) + [KeyOf(s[|s| - 1])]
  }

  /** Decoding is concatenation-preserving over terminator-free data. */
  lemma {:induction false} DecodeAppend(a: seq<byte>, b: seq<byte>)
    ensures Decode(a + b) == Decode(a) + Decode(b)
    decreases |b|
  {
    if b == [] {
      assert a + b == a;
    } else {
      var b' := b[..|b| - 1];
      assert (a + b)[..|a + b| - 1] == a + b';
      DecodeAppend(a, b');
    }
  }

  /** A zero byte anywhere in a frame leaves the decoded barcode unchanged. */
  lemma ZeroIsPadding(a: seq<byte>, b: seq<byte>)
    ensures Decode(a + [0] + b) == Decode(a + b)
  {
    calc {
      Decode(a + [0] + b);
      { DecodeAppend(a + [0], b); }
      Decode(a + [0]) + Decode(b);
      { DecodeAppend(a, [0]); DecodeZero(); }
      Decode(a) + Decode(b);
      { DecodeAppend(a, b); }
      Decode(a + b);
    }
  }

  lemma DecodeZero()
    ensures Decode([0]) == ""
  {
    assert [0 as byte][..0] == [];
    assert KeyChar(0) == None;
  }

  /** Decoding the key strokes of a barcode gives the barcode back. */
  lemma {:induction false} DecodeEncode(s: string)
    requires forall i :: 0 <= i < |s| ==> IsLowerAlnum(s[i])
    ensures Decode(Encode(s)) == s
    decreases |s|
  {
    if s != [] {
      var s' := s[..|s| - 1];
      DecodeEncode(s');
      var keys := Encode(s);
      assert keys[..|keys| - 1] == Encode(s');
      assert s == s' + [s[|s| - 1]];
    }
  }

  /** One more byte of a frame adds what that byte contributes, if anything. */
  lemma DecodeStep(data: seq<byte>, i: nat)
    requires i < |data|
    ensures Decode(data[..i + 1]) == Decode(data[..i]) + Chars(KeyChar(data[i]))
  {
    assert data[..i + 1][..i] == data[..i];
  }

  /** Examples of the decoder's behaviour. */
  lemma DecodeExamples()
    ensures Decode([0x00, 0x04, 0x00]) == "a"
    ensures Decode([0x1e, 0x1f, 0x27]) == "120"
    ensures Decode([0x04, 0xff, 0x05]) == "ab"
    ensures Decode([0x1d, 0x29, 0xe1]) == "z"
    ensures Decode([]) == ""
  {
    assert [0x00 as byte, 0x04, 0x00][..2] == [0x00, 0x04];
    assert [0x00 as byte, 0x04][..1] == [0x00];
    assert [0x00 as byte][..0] == [];
    assert [0x1e as byte, 0x1f, 0x27][..2] == [0x1e, 0x1f];
    assert [0x1e as byte, 0x1f][..1] == [0x1e];
    assert [0x1e as byte][..0] == [];
    assert [0x04 as byte, 0xff, 0x05][..2] == [0x04, 0xff];
    assert [0x04 as byte, 0xff][..1] == [0x04];
    assert [0x04 as byte][..0] == [];
    assert [0x1d as byte, 0x29, 0xe1][..2] == [0x1d, 0x29];
    assert [0x1d as byte, 0x29][..1] == [0x1d];
    assert [0x1d as byte][..0] == [];
  }

  /** The position of the first `delim` at or after `from`, if there is one. */
  function IndexOf(s: seq<byte>, from: nat, delim: byte): (r: Option<nat>)
    requires from <= |s|
    ensures r.Some? ==> from <= r.value < |s| && s[r.value] == delim
    ensures r.Some? ==> forall k :: from <= k < r.value ==> s[k] != delim
    ensures r.None? ==> forall k :: from <= k < |s| ==> s[k] != delim
    decreases |s| - from
  {
    if from == |s| then None
    else if s[from] == delim then Some(from)
    else IndexOf(s, from + 1, delim)
  }

  /** Skipping bytes that are not the delimiter does not move the next delimiter. */
  lemma {:induction false} IndexOfSkip(s: seq<byte>, from: nat, to: nat, delim: byte)
    requires from <= to <= |s|
    requires forall k :: from <= k < to ==> s[k] != delim
    ensures IndexOf(s, from, delim) == IndexOf(s, to, delim)
    decreases |s| - from
  {
    if from < to {
      IndexOfSkip(s, from + 1, to, delim);
    }
  }

  /**
   * A barcode sent by the scanner after any earlier bytes is found by the next
   * read at that position: its frame ends at its own terminator and decodes
   * to the barcode, whatever bytes follow.
   */
  lemma EncodedFrame(before: seq<byte>, s: string, after: seq<byte>)
    requires forall i :: 0 <= i < |s| ==> IsLowerAlnum(s[i])
    ensures var input := before + Encode(s) + [KcEnter] + after;
      var end := |before| + |Encode(s)|;
      IndexOf(input, |before|, KcEnter) == Some(end) && Decode(input[|before|..end]) == s
  {
    var input := before + Encode(s) + [KcEnter] + after;
    var end := |before| + |Encode(s)|;
    IndexOfSkip(input, |before|, end, KcEnter);
    assert input[|before|..end] == Encode(s);
    DecodeEncode(s);
  }

  /** The buffered reader over the device (Go's bufio.Reader). */
  class BufReader {
    /** Every byte the device delivers, up to the end of the stream. */
    const input: seq<byte>
    /** How many of them have been consumed. */
    var pos: nat

    ghost predicate Valid()
      reads this
    {
      pos <= |input|
    }

    constructor (input: seq<byte>)
      ensures Valid() && this.input == input && pos == 0
    {
      this.input := input;
      pos := 0;
    }

    /**
     * Reads up to and including the first `delim`. At the end of the stream
     * it returns what was left and reports end of file.
     */
    method ReadBytes(delim: byte) returns (line: seq<byte>, eof: bool)
      requires Valid()
      modifies this
      ensures Valid()
      ensures match IndexOf(input, old(pos), delim)
        case Some(i) => !eof && line == input[old(pos)..i + 1] && pos == i + 1
        case None => eof && line == input[old(pos)..] && pos == |input|
    {
      line := [];
      while pos < |input| && input[pos] != delim
        invariant old(pos) <= pos <= |input|
        invariant line == input[old(pos)..pos]
        invariant IndexOf(input, old(pos), delim) == IndexOf(input, pos, delim)
        decreases |input| - pos
      {
        line := line + [input[pos]];
        pos := pos + 1;
      }
      if pos == |input| {
        eof := true;
      } else {
        line := line + [input[pos]];
        pos := pos + 1;
        eof := false;
      }
    }
  }

  /** The error a read reports when the stream ends before an Enter. */
  datatype ReadError = ReadingKeystrokes

  /** What a read returns: a barcode, or the empty string and an error. */
  datatype Frame = Frame(code: string, err: Option<ReadError>)

  /**
   * bytes.TrimSuffix for a one-byte suffix: a prefix of `s` that lacks only
   * the final `b`, when `s` ends with one.
   */
  function TrimSuffix(s: seq<byte>, b: byte): (r: seq<byte>)
    ensures r <= s
    ensures r != s <==> |s| > 0 && s[|s| - 1] == b
    ensures r != s ==> r + [b] == s
  {
    if |s| > 0 && s[|s| - 1] == b then s[..|s| - 1] else s
  }

  /** A scanner wraps the device in a buffered reader. */
  method New(input: seq<byte>) returns (s: Scanner)
    ensures fresh(s.reader) && s.reader.Valid()
    ensures s.reader.input == input && s.reader.pos == 0
  {
    var reader := new BufReader(input);
    s := Scanner(reader);
  }

  /**
   * The decoding loop of Read: zero bytes are skipped, letters and digits
   * appended, and every other key code dropped.
   */
  method DecodeKeystrokes(data: seq<byte>) returns (code: string)
    ensures code == Decode(data)
  {
    code := "";
    for i := 0 to |data|
      invariant code == Decode(data[..i])
    {
      DecodeStep(data, i);
      var kc := data[i];
      if kc == 0 {
        // zero bytes are skipped; where they come from is unknown
        continue;
      }
      if KcA <= kc <= KcZ {
        var c := (kc - KcA + AsciiA) as int as char;
        assert KeyChar(kc) == Some(c);
        code := code + [c];
      } else if KcOne <= kc <= KcZero {
        var c := ((kc - KcOne + 1) % 10 + AsciiZero) as int as char;
        assert KeyChar(kc) == Some(c);
        code := code + [c];
      } else {
        assert KeyChar(kc) == None;
      }
    }
    assert data[..|data|] == data;
  }

  datatype Scanner = Scanner(reader: BufReader) {
    /**
     * Reads one barcode: the bytes up to the next Enter are consumed and
     * decoded; the Enter itself contributes nothing. If the stream ends first,
     * the read fails with the empty string and no partial barcode.
     */
    method Read() returns (r: Frame)
      requires reader.Valid()
      modifies reader
      ensures reader.Valid()
      ensures match IndexOf(reader.input, old(reader.pos), KcEnter)
        case Some(i) =>
          r == Frame(Decode(reader.input[old(reader.pos)..i]), None) && reader.pos == i + 1
        case None =>
          r == Frame("", Some(ReadingKeystrokes)) && reader.pos == |reader.input|
    {
      ghost var start := reader.pos;
      var data, eof := reader.ReadBytes(KcEnter);
      if eof {
        return Frame("", Some(ReadingKeystrokes));
      }
      ghost var end := IndexOf(reader.input, start, KcEnter).value;
      assert data == reader.input[start..end] + [KcEnter];
      data := TrimSuffix(data, KcEnter);
      assert data == reader.input[start..end];

      var code := DecodeKeystrokes(data);
      return Frame(code, None);
    }
  }

  lemma FirstFrame(input: seq<byte>)
    requires input == [0x1e, 0x1f, 0x27, 0x28, 0x28, 0x05]
    ensures IndexOf(input, 0, KcEnter) == Some(3)
    ensures Decode(input[0..3]) == "120"
  {
    IndexOfSkip(input, 0, 3, KcEnter);
    assert input[0..3] == [0x1e, 0x1f, 0x27];
    DecodeExamples();
  }

  /**
   * Two frames and an unterminated tail, read one after another from one
   * device: each read leaves the following bytes for the next.
   */
  method ReadSuccessiveFrames() returns (first: Frame, second: Frame, third: Frame)
    ensures first == Frame("120", None)
    ensures second == Frame("", None)
    ensures third == Frame("", Some(ReadingKeystrokes))
  {
    var s := New([0x1e, 0x1f, 0x27, 0x28, 0x28, 0x05]);
    ghost var input := s.reader.input;
    FirstFrame(input);
    first := s.Read();
    assert IndexOf(input, 4, KcEnter) == Some(4);
    second := s.Read();
    assert input[4..4] == [];
    assert IndexOf(input, 5, KcEnter) == None;
    third := s.Read();
  }
}
