/** Raw pages as text: `hex_to_ascii` and its inverse, the `atoc` conversion tool. */
module Hex {
  import opened Bits

  /** The table `ascii_map`: '0' to '9', then 'A' to 'F'. */
  function AsciiMap(d: nat): (c: char)
    requires d < 16
    ensures Convert(c) == Some(d) && c != ' '
    ensures '0' <= c <= '9' || 'A' <= c <= 'F'
  {
    if d < 10 then '0' + d as char else 'A' + (d - 10) as char
  }

  /** The table as the source spells it. */
  lemma AsciiTable(d: nat)
    requires d < 16
    ensures AsciiMap(d) == "0123456789ABCDEF"[d]
  {
  }

  /** The word separator in front of byte i: a space before every fourth byte but the first. */
  function Separator(i: nat): string
  {
    if i > 0 && i % 4 == 0 then " " else ""
  }

  /** The two digits of a byte, `ascii_map[(b & 0xf0) >> 4]` and `ascii_map[b & 0xf]`. */
  function HexPair(b: byte): (s: string)
    ensures |s| == 2 && s[0] != ' ' && s[1] != ' '
    ensures ConvertPair(s[0], s[1]) == Some(b)
  {
    [AsciiMap(b / 16), AsciiMap(b % 16)]
  }

  /** Two upper-case digits per byte, in words of four bytes. */
  function HexText(bytes: seq<byte>): string
  {
    if bytes == [] then ""
    else
      var i := |bytes| - 1;
      HexText(bytes[..i]) + Separator(i) + HexPair(bytes[i])
  }

  lemma {:induction false} HexTextLength(bytes: seq<byte>)
    ensures |HexText(bytes)| == if bytes == [] then 0 else 2 * |bytes| + (|bytes| - 1) / 4
  {
    if bytes != [] {
      HexTextLength(bytes[..|bytes| - 1]);
    }
  }

  lemma {:induction false} HexTextStep(bytes: seq<byte>, i: nat)
    requires i < |bytes|
    ensures HexText(bytes[..i + 1]) == HexText(bytes[..i]) + Separator(i) + HexPair(bytes[i])
    ensures |HexText(bytes[..i + 1])| <= 2 * |bytes| + |bytes| / 4
  {
    assert bytes[..i + 1][..i] == bytes[..i];
    HexTextLength(bytes[..i + 1]);
  }

  /** `ascii[j++] = c` */
  method Put(ascii: array<char>, j: nat, c: char) returns (next: nat)
    requires j < ascii.Length
    modifies ascii
    ensures next == j + 1 && ascii[..next] == old(ascii[..j]) + [c]
  {
    ascii[j] := c;
    next := j + 1;
  }

  /** `hex_to_ascii`: every store, the terminator included, falls inside the allocation, and
      the NUL-terminated text has exactly 2n + (n-1)/4 characters. */
  method HexToAscii(bytes: seq<byte>) returns (ascii: array<char>, len: nat)
    ensures fresh(ascii) && ascii.Length == 2 * |bytes| + |bytes| / 4 + 1
    ensures len < ascii.Length && ascii[len] == '\0'
    ensures ascii[..len] == HexText(bytes)
    ensures len == if bytes == [] then 0 else 2 * |bytes| + (|bytes| - 1) / 4
  {
    ascii := new char[2 * |bytes| + |bytes| / 4 + 1];
    var j := 0;
    for i := 0 to |bytes|
      invariant j < ascii.Length && ascii[..j] == HexText(bytes[..i])
    {
      HexTextStep(bytes, i);
      ghost var done := ascii[..j];
      if i > 0 && i % 4 == 0 {
        j := Put(ascii, j, ' ');
      }
      assert ascii[..j] == done + Separator(i);
      j := Put(ascii, j, AsciiMap(bytes[i] / 16));
      j := Put(ascii, j, AsciiMap(bytes[i] % 16));
      assert ascii[..j] == done + Separator(i) + HexPair(bytes[i]);
    }
    assert bytes[..|bytes|] == bytes;
    HexTextLength(bytes);
    ascii[j] := '\0';
    len := j;
  }

  // ---- the inverse ----

  datatype Option<+T> = None | Some(value: T)

  /** `convert`: a hexadecimal digit in either case; anything else ends the tool. */
  function Convert(c: char): Option<nat>
  {
    if '0' <= c <= '9' then Some(c as int - '0' as int)
    else if 'a' <= c <= 'f' then Some(c as int - 'a' as int + 10)
    else if 'A' <= c <= 'F' then Some(c as int - 'A' as int + 10)
    else None
  }

  /** One output byte, `(convert(hi) << 4) + convert(lo)`. */
  function ConvertPair(hi: char, lo: char): Option<byte>
  {
    match (Convert(hi), Convert(lo))
    case (Some(h), Some(l)) => Some(16 * h + l)
    case _ => None
  }

  function RemoveSpaces(s: string): string
  {
    if s == [] then []
    else RemoveSpaces(s[..|s| - 1]) + (if s[|s| - 1] == ' ' then [] else [s[|s| - 1]])
  }

  /** Decodes a text of digit pairs; fails on an odd length or on a non-digit. */
  function DecodePairs(s: string): Option<seq<byte>>
  {
    if s == [] then Some([])
    else if |s| == 1 then None
    else
      match (DecodePairs(s[..|s| - 2]), ConvertPair(s[|s| - 2], s[|s| - 1]))
      case (Some(front), Some(b)) => Some(front + [b])
      case _ => None
  }

  lemma {:induction false} RemoveSpacesAppend(s: string, c: char)
    ensures RemoveSpaces(s + [c]) == RemoveSpaces(s) + if c == ' ' then [] else [c]
  {
  }

  lemma {:induction false} SeparatorVanishes(s: string, i: nat)
    ensures RemoveSpaces(s + Separator(i)) == RemoveSpaces(s)
  {
    RemoveSpacesAppend(s, ' ');
    assert s + "" == s;
  }

  lemma {:induction false} RemoveSpacesPair(s: string, p: string)
    requires |p| == 2 && p[0] != ' ' && p[1] != ' '
    ensures RemoveSpaces(s + p) == RemoveSpaces(s) + p
  {
    RemoveSpacesAppend(s, p[0]);
    RemoveSpacesAppend(s + [p[0]], p[1]);
    assert s + p == s + [p[0]] + [p[1]];
  }

  lemma {:induction false} DecodeAppend(s: string, b: byte)
    requires DecodePairs(s).Some?
    ensures DecodePairs(s + HexPair(b)) == Some(DecodePairs(s).value + [b])
  {
  }

  /** One more word and pair of digits decode to one more byte. */
  lemma RoundTripStep(text: string, bytes: seq<byte>, b: byte)
    requires DecodePairs(RemoveSpaces(text)) == Some(bytes)
    ensures DecodePairs(RemoveSpaces(text + Separator(|bytes|) + HexPair(b))) == Some(bytes + [b])
  {
    hide RemoveSpaces, DecodePairs, HexPair, Separator;
    SeparatorVanishes(text, |bytes|);
    RemoveSpacesPair(text + Separator(|bytes|), HexPair(b));
    DecodeAppend(RemoveSpaces(text), b);
  }

  /** The text kept in `a0` gives back the page: drop the spaces, decode the pairs. */
  lemma {:induction false} HexRoundTrip(bytes: seq<byte>)
    ensures DecodePairs(RemoveSpaces(HexText(bytes))) == Some(bytes)
  {
    hide HexPair, Separator;
    if bytes != [] {
      var init, b := bytes[..|bytes| - 1], bytes[|bytes| - 1];
      HexRoundTrip(init);
      RoundTripStep(HexText(init), init, b);
      assert bytes == init + [b];
    }
  }

  lemma {:induction false} DecodeLength(s: string)
    requires DecodePairs(s).Some?
    ensures |s| == 2 * |DecodePairs(s).value| && '\n' !in s
  {
    if s != [] {
      DecodeLength(s[..|s| - 2]);
      assert s == s[..|s| - 2] + [s[|s| - 2], s[|s| - 1]];
    }
  }

  /** Decoding is done pair by pair. */
  lemma {:induction false} DecodeStep(s: string, k: nat)
    requires DecodePairs(s).Some? && 2 * k < |s|
    ensures 2 * k + 1 < |s| && k < |DecodePairs(s).value|
    ensures ConvertPair(s[2 * k], s[2 * k + 1]) == Some(DecodePairs(s).value[k])
  {
    DecodeLength(s);
    if 2 * k + 2 < |s| {
      DecodeLength(s[..|s| - 2]);
      DecodeStep(s[..|s| - 2], k);
    }
  }

  /** `fread(buf, 2, 1, fp)` at pair k: end of file is reported only when the read falls short,
      and a short read leaves the unread part of the buffer as it was. */
  function ReadPair(file: string, k: nat, hi: char, lo: char): (r: (char, char, bool))
    requires 2 * k <= |file|
  {
    if 2 * k + 2 <= |file| then (file[2 * k], file[2 * k + 1], false)
    else if 2 * k + 1 == |file| then (file[2 * k], lo, true)
    else (hi, lo, true)
  }

  /** What the `atoc` loop still writes, from pair k on with the given buffer contents. */
  function AtocFrom(file: string, k: nat, hi: char, lo: char): Option<seq<byte>>
    requires 2 * k <= |file|
    decreases |file| - 2 * k
  {
    var (h, l, eof) := ReadPair(file, k, hi, lo);
    if h == '\n' then Some([])
    else
      match ConvertPair(h, l)
      case None => None
      case Some(b) =>
        if eof then Some([b])
        else
          After([b], AtocFrom(file, k + 1, h, l))
  }

  /** The output once the rest of the loop has added to what is already written. */
  function After(written: seq<byte>, rest: Option<seq<byte>>): Option<seq<byte>>
  {
    match rest
    case None => None
    case Some(r) => Some(written + r)
  }

  lemma AfterAfter(a: seq<byte>, b: seq<byte>, rest: Option<seq<byte>>)
    ensures After(a, After(b, rest)) == After(a + b, rest)
    ensures After([], rest) == rest && After(a, Some([])) == Some(a)
  {
    if rest.Some? {
      assert a + (b + rest.value) == a + b + rest.value;
      assert [] + rest.value == rest.value;
    }
    assert a + [] == a;
  }

  /** The `atoc` main loop; out is None when `convert` ends the program. */
  method Atoc(file: string, hi: char, lo: char) returns (out: Option<seq<byte>>)
    ensures out == AtocFrom(file, 0, hi, lo)
  {
    var h, l, eof := hi, lo, false;
    var k := 0;
    var data: seq<byte> := [];
    AfterAfter([], [], AtocFrom(file, 0, hi, lo));
    while !eof
      invariant !eof ==> 2 * k <= |file|
      invariant !eof ==> AtocFrom(file, 0, hi, lo) == After(data, AtocFrom(file, k, h, l))
      invariant eof ==> AtocFrom(file, 0, hi, lo) == Some(data)
      decreases !eof, |file| - 2 * k
    {
      var (h', l', eof') := ReadPair(file, k, h, l);
      if h' == '\n' {
        AfterAfter(data, [], None);
        return Some(data);
      }
      var b := ConvertPair(h', l');
      if b.None? {
        return None;
      }
      AfterAfter(data, [b.value], if eof' then None else AtocFrom(file, k + 1, h', l'));
      h, l, eof, k, data := h', l', eof', k + 1, data + [b.value];
    }
    out := Some(data);
  }

  /** On a digit text ended by a newline the tool writes exactly the decoded bytes, whatever follows. */
  lemma {:induction false} AtocDecodes(s: string, rest: string, k: nat, hi: char, lo: char)
    requires DecodePairs(s).Some? && 2 * k <= |s|
    ensures k <= |DecodePairs(s).value|
    ensures AtocFrom(s + "\n" + rest, k, hi, lo) == Some(DecodePairs(s).value[k..])
    decreases |s| - 2 * k
  {
    DecodeLength(s);
    var file := s + "\n" + rest;
    if 2 * k < |s| {
      DecodeStep(s, k);
      AtocDecodes(s, rest, k + 1, s[2 * k], s[2 * k + 1]);
      assert s[2 * k] in s;
      assert ReadPair(file, k, hi, lo) == (s[2 * k], s[2 * k + 1], false);
      var b := DecodePairs(s).value;
      assert b[k..] == [b[k]] + b[k + 1..];
    } else {
      assert file[2 * k] == '\n';
      assert DecodePairs(s).value[k..] == [];
    }
  }

  /** The a0 text, with its spaces dropped and a newline added, goes through the tool back to the
      bytes it was made from. */
  lemma AtocRestoresPage(bytes: seq<byte>, rest: string, hi: char, lo: char)
    ensures AtocFrom(RemoveSpaces(HexText(bytes)) + "\n" + rest, 0, hi, lo) == Some(bytes)
  {
    var digits := RemoveSpaces(HexText(bytes));
    HexRoundTrip(bytes);
    AtocDecodes(digits, rest, 0, hi, lo);
    assert bytes[0..] == bytes;
  }

  /** Without the newline the last byte is written twice. */
  lemma {:induction false} AtocRepeatsLast(s: string, k: nat, hi: char, lo: char)
    requires DecodePairs(s).Some? && 2 * k <= |s| && s != ""
    requires k > 0 ==> hi == s[2 * k - 2] && lo == s[2 * k - 1]
    ensures |DecodePairs(s).value| > 0 && k <= |DecodePairs(s).value|
    ensures var b := DecodePairs(s).value; AtocFrom(s, k, hi, lo) == Some(b[k..] + [b[|b| - 1]])
    decreases |s| - 2 * k
  {
    DecodeLength(s);
    var b := DecodePairs(s).value;
    if 2 * k < |s| {
      DecodeStep(s, k);
      AtocRepeatsLast(s, k + 1, s[2 * k], s[2 * k + 1]);
      assert s[2 * k] in s;
      assert b[k..] + [b[|b| - 1]] == [b[k]] + (b[k + 1..] + [b[|b| - 1]]);
    } else {
      DecodeStep(s, k - 1);
      assert hi in s;
      assert ReadPair(s, k, hi, lo) == (hi, lo, true);
      assert b[k..] + [b[|b| - 1]] == [b[k - 1]];
    }
  }
}
