/** The bytes pasted into the agy pane for a message. The character encoding is UTF-8, section 3 of
    RFC 3629. A Dafny `char` is a Unicode scalar value. */
module PasteEncoding {
  import opened Common

  // ----- UTF-8 -----

  function Utf8(c: char): (bs: seq<byte>)
    ensures bs != []
    ensures c as int >= 0x80 ==> forall i :: 0 <= i < |bs| ==> bs[i] >= 0x80
  {
    var n := c as int;
    if n < 0x80 then [n]
    else if n < 0x800 then [0xC0 + n / 64, 0x80 + n % 64]
    else if n < 0x1_0000 then [0xE0 + n / 4096, 0x80 + n / 64 % 64, 0x80 + n % 64]
    else [0xF0 + n / 0x4_0000, 0x80 + n / 4096 % 64, 0x80 + n / 64 % 64, 0x80 + n % 64]
  }

  predicate Continuation(b: byte) { 0x80 <= b < 0xC0 }

  predicate ScalarValue(n: int) { 0 <= n < 0xD800 || 0xE000 <= n < 0x11_0000 }

  /** How many bytes a sequence with this first byte has; 0 for a byte that starts none. */
  function SequenceLength(b: byte): nat {
    if b < 0x80 then 1
    else if 0xC0 <= b < 0xE0 then 2
    else if 0xE0 <= b < 0xF0 then 3
    else if 0xF0 <= b < 0xF8 then 4
    else 0
  }

  /** The number spelled by one whole sequence. */
  function CodePoint(bs: seq<byte>): int
    requires 1 <= |bs| <= 4
  {
    match |bs|
    case 1 => bs[0]
    case 2 => Bits(bs[0], 0xC0) * 64 + Bits(bs[1], 0x80)
    case 3 => Bits(bs[0], 0xE0) * 4096 + Bits(bs[1], 0x80) * 64 + Bits(bs[2], 0x80)
    case _ =>
      Bits(bs[0], 0xF0) * 0x4_0000 + Bits(bs[1], 0x80) * 4096 + Bits(bs[2], 0x80) * 64 + Bits(bs[3], 0x80)
  }

  function Bits(b: byte, marker: int): int { b as int - marker }

  /** A strict decoder: no overlong forms, no surrogates, nothing above U+10FFFF. */
  function DecodeUtf8(bs: seq<byte>): Option<string>
    decreases |bs|
  {
    if bs == [] then Some("")
    else
      var k := SequenceLength(bs[0]);
      if k == 0 || k > |bs| || exists i :: 0 < i < k && !Continuation(bs[i]) then None
      else
        var n := CodePoint(bs[..k]);
        if !ScalarValue(n) || |Utf8(n as char)| != k then None
        else
          match DecodeUtf8(bs[k..])
          case None => None
          case Some(s) => Some([n as char] + s)
  }

  lemma CodePointOfUtf8(c: char)
    ensures |Utf8(c)| <= 4 && CodePoint(Utf8(c)) == c as int
    ensures SequenceLength(Utf8(c)[0]) == |Utf8(c)|
    ensures forall i :: 0 < i < |Utf8(c)| ==> Continuation(Utf8(c)[i])
  {
    var n := c as int;
    assert n / 4096 == n / 64 / 64 && n / 0x4_0000 == n / 4096 / 64;
  }

  lemma DecodesOne(c: char, more: seq<byte>)
    ensures DecodeUtf8(Utf8(c) + more) ==
            match DecodeUtf8(more) { case None => None case Some(s) => Some([c] + s) }
  {
    CodePointOfUtf8(c);
    var bs, k := Utf8(c) + more, |Utf8(c)|;
    assert bs[..k] == Utf8(c) && bs[k..] == more;
    assert forall i :: 0 < i < k ==> bs[i] == Utf8(c)[i];
  }

  // ----- line breaks and controls -----

  /** `text.replace("\r\n", "\n")` */
  function ReplaceCrLf(text: string): string {
    if |text| >= 2 && text[0] == '\r' && text[1] == '\n' then "\n" + ReplaceCrLf(text[2..])
    else if text == "" then ""
    else [text[0]] + ReplaceCrLf(text[1..])
  }

  /** `text.replace("\r", "\n")` */
  function ReplaceCr(text: string): (r: string)
    ensures |r| == |text| && forall i :: 0 <= i < |r| ==> r[i] == if text[i] == '\r' then '\n' else text[i]
  {
    if text == "" then "" else [if text[0] == '\r' then '\n' else text[0]] + ReplaceCr(text[1..])
  }

  predicate Kept(c: char) { c == '\n' || c == '\t' || c as int >= 0x20 }

  function KeptOnly(text: string): string {
    if text == "" then ""
    else (if Kept(text[0]) then [text[0]] else "") + KeptOnly(text[1..])
  }

  /** The message as the pane should hold it, in one pass: CRLF and CR are line breaks, and every
      control character other than a tab or a line break is gone. */
  function Displayed(text: string): string {
    if text == "" then ""
    else if text[0] == '\r' then
      "\n" + Displayed(if |text| >= 2 && text[1] == '\n' then text[2..] else text[1..])
    else
      (if text[0] == '\n' || text[0] == '\t' || text[0] as int >= 0x20 then [text[0]] else "")
      + Displayed(text[1..])
  }

  lemma {:induction false} TwoReplacesAreOnePass(text: string)
    ensures KeptOnly(ReplaceCr(ReplaceCrLf(text))) == Displayed(text)
    decreases |text|
  {
    if |text| >= 2 && text[0] == '\r' && text[1] == '\n' {
      TwoReplacesAreOnePass(text[2..]);
      assert ReplaceCrLf(text)[1..] == ReplaceCrLf(text[2..]);
    } else if text != "" {
      TwoReplacesAreOnePass(text[1..]);
      assert ReplaceCrLf(text)[1..] == ReplaceCrLf(text[1..]);
    }
  }

  // ----- the encoder -----

  function Encoded(c: char): seq<byte> {
    if c == '\n' then [0x0D]
    else if c == '\t' then [0x09]
    else if c as int < 0x20 then []
    else Utf8(c)
  }

  function EncodedAll(text: string): seq<byte> {
    if text == "" then [] else Encoded(text[0]) + EncodedAll(text[1..])
  }

  /** Nothing in the payload can end the bracketed paste or submit it early. */
  predicate SafeBytes(bs: seq<byte>) {
    forall i :: 0 <= i < |bs| && bs[i] < 0x20 ==> bs[i] == 0x09 || bs[i] == 0x0D
  }

  lemma {:induction false} EncodedAllAppend(text: string, c: char)
    ensures EncodedAll(text + [c]) == EncodedAll(text) + Encoded(c)
  {
    if text == "" {
      assert EncodedAll([c]) == Encoded(c) + EncodedAll("");
    } else {
      EncodedAllAppend(text[1..], c);
      assert (text + [c])[1..] == text[1..] + [c];
    }
  }

  lemma {:induction false} EncodedAllDecodes(text: string)
    requires '\r' !in text
    ensures DecodeUtf8(EncodedAll(text)).Some?
    ensures ReplaceCr(DecodeUtf8(EncodedAll(text)).value) == KeptOnly(text)
  {
    if text != "" {
      var c, more := text[0], EncodedAll(text[1..]);
      EncodedAllDecodes(text[1..]);
      if c == '\n' {
        assert Utf8('\r') == Encoded(c);
        DecodesOne('\r', more);
      } else if Kept(c) {
        assert Encoded(c) == Utf8(c);
        DecodesOne(c, more);
      } else {
        assert Encoded(c) + more == more;
      }
    }
  }

  /** The bytes of a message: safe to paste, and the message is read back from them. */
  method PastePayloadBytes(text: string) returns (body: seq<byte>)
    ensures SafeBytes(body)
    ensures DecodeUtf8(body).Some? && ReplaceCr(DecodeUtf8(body).value) == Displayed(text)
  {
    var normalized := ReplaceCr(ReplaceCrLf(text));
    body := [];
    for i := 0 to |normalized|
      invariant body == EncodedAll(normalized[..i])
      invariant SafeBytes(body)
    {
      var ch := normalized[i];
      EncodedAllAppend(normalized[..i], ch);
      assert normalized[..i + 1] == normalized[..i] + [ch];
      if ch == '\n' {
        body := body + [0x0D];
        continue;
      }
      if ch == '\t' {
        body := body + [0x09];
        continue;
      }
      if ch as int < 0x20 {
        continue;
      }
      body := body + Utf8(ch);
    }
    assert normalized[..|normalized|] == normalized;
    EncodedAllDecodes(normalized);
    TwoReplacesAreOnePass(text);
  }
}
