/** The base64url helpers of web/app.js: `bufToB64url`, `b64urlToBuf`, `arrayBufferToBase64`. */
module Base64Url {
  import opened Positional
  import opened Radix
  import opened Wrappers
  import opened Base64

  /** `binary`, one character per byte. */
  function Binary(bytes: seq<Byte>): (s: string)
    ensures |s| == |bytes| && forall i :: 0 <= i < |s| ==> s[i] == bytes[i] as char
  {
    seq(|bytes|, i requires 0 <= i < |bytes| => bytes[i] as char)
  }

  /** `btoa` on a string of characters below 256. */
  function Btoa(s: string): string
    requires forall i :: 0 <= i < |s| ==> s[i] as int < 256
  {
    Encode(seq(|s|, i requires 0 <= i < |s| => s[i] as int))
  }

  lemma BinaryConcat(a: seq<Byte>, b: seq<Byte>)
    ensures Binary(a + b) == Binary(a) + Binary(b)
  {}

  lemma BtoaBinary(bytes: seq<Byte>)
    ensures Btoa(Binary(bytes)) == Encode(bytes)
  {
    var s := Binary(bytes);
    var back: seq<Byte> := seq(|s|, i requires 0 <= i < |s| => s[i] as int);
    assert back == bytes;
  }

  function ToUrl(c: char): char {
    if c == '+' then '-' else if c == '/' then '_' else c
  }

  function FromUrl(c: char): char {
    if c == '-' then '+' else if c == '_' then '/' else c
  }

  function Mapped(s: string, f: char -> char): (t: string)
    ensures |t| == |s| && forall i :: 0 <= i < |s| ==> t[i] == f(s[i])
  {
    seq(|s|, i requires 0 <= i < |s| => f(s[i]))
  }

  /** `replace(/=+$/, "")`. */
  function TrimFill(s: string): string {
    if s != [] && s[|s| - 1] == '=' then TrimFill(s[..|s| - 1]) else s
  }

  /** What `bufToB64url` returns: the standard letters in the URL alphabet, no padding. */
  function UrlText(bytes: seq<Byte>): string {
    TrimFill(Mapped(Encode(bytes), ToUrl))
  }

  /** What `b64urlToBuf` returns; None when `atob` throws. */
  function UrlBytes(value: string): Option<seq<Byte>> {
    var padded := Mapped(value, FromUrl);
    Atob(padded + Fill(|padded|))
  }

  method BufToB64url(buffer: array<Byte>) returns (r: string)
    ensures r == UrlText(buffer[..])
  {
    var binary := "";
    for i := 0 to buffer.Length
      invariant binary == Binary(buffer[..i])
    {
      assert buffer[..i + 1] == buffer[..i] + [buffer[i]];
      BinaryConcat(buffer[..i], [buffer[i]]);
      binary := binary + [buffer[i] as char];
    }
    assert buffer[..buffer.Length] == buffer[..];
    BtoaBinary(buffer[..]);
    r := TrimFill(Mapped(Btoa(binary), ToUrl));
  }

  method B64urlToBuf(value: string) returns (r: Option<array<Byte>>)
    ensures r.None? <==> UrlBytes(value) == None
    ensures r.Some? ==> fresh(r.value) && Some(r.value[..]) == UrlBytes(value)
  {
    hide Atob, Mapped, Fill, FromUrl;
    var padded := Mapped(value, FromUrl);
    var decoded := Atob(padded + Fill(|padded|));
    if decoded == None { return None; }
    var binary := Binary(decoded.value);
    var bytes := new Byte[|binary|];
    for i := 0 to |binary|
      invariant forall j :: 0 <= j < i ==> bytes[j] == decoded.value[j]
    {
      bytes[i] := binary[i] as int;
    }
    assert bytes[..] == decoded.value;
    return Some(bytes);
  }

  lemma NoBytes(bytes: seq<Byte>)
    requires |bytes| == 0
    ensures Binary(bytes) == ""
  {}

  /** `arrayBufferToBase64`: 0x8000 bytes at a time. */
  method ArrayBufferToBase64(buf: array<Byte>) returns (r: string)
    ensures r == Encode(buf[..])
  {
    hide Encode, Btoa, Binary;
    var binary := "";
    var chunk := 0x8000;
    var i := 0;
    NoBytes(buf[..0]);
    while i < buf.Length
      invariant 0 <= i && binary == Binary(buf[..if i < buf.Length then i else buf.Length])
    {
      var end := if i + chunk < buf.Length then i + chunk else buf.Length;
      assert buf[..end] == buf[..i] + buf[i..end];
      BinaryConcat(buf[..i], buf[i..end]);
      binary := binary + Binary(buf[i..end]);
      i := i + chunk;
    }
    assert buf[..buf.Length] == buf[..];
    BtoaBinary(buf[..]);
    r := Btoa(binary);
  }

  lemma {:induction false} TrimAll(s: string, n: nat)
    requires forall i :: 0 <= i < |s| ==> s[i] != '='
    ensures TrimFill(s + seq(n, i => '=')) == s
  {
    var t := s + seq(n, i => '=');
    if n == 0 {
      assert t == s;
    } else {
      assert t[..|t| - 1] == s + seq(n - 1, i => '=');
      TrimAll(s, n - 1);
    }
  }

  lemma UrlTextIsBody(bytes: seq<Byte>)
    ensures UrlText(bytes) == Mapped(Body(bytes), ToUrl)
  {
    BodyBack(bytes);
    var b := Body(bytes);
    var n := |Fill(|b|)|;
    assert Mapped(Encode(bytes), ToUrl) == Mapped(b, ToUrl) + seq(n, i => '=');
    forall i | 0 <= i < |b| ensures ToUrl(b[i]) != '=' { assert Sextet(b[i]).Some?; }
    TrimAll(Mapped(b, ToUrl), n);
  }

  const URL_LETTERS := UPPER + LOWER + DIGITS + "-_"

  lemma UrlLetter(d: nat)
    requires d < 64
    ensures |URL_LETTERS| == 64 && ToUrl(Letter(d)) == URL_LETTERS[d]
  {
    Runs();
    hide UPPER, LOWER, DIGITS;
  }

  /** RFC 4648, section 5: letters of the URL alphabet for the same base-64 digits, and no padding. */
  lemma UrlTextIs(bytes: seq<Byte>)
    ensures var s := UrlText(bytes);
            exists ds: seq<nat> ::
              && Denotes(ds, bytes, 6) && |ds| == |s|
              && (forall i :: 0 <= i < |s| ==> ds[i] < 64 && s[i] == URL_LETTERS[ds[i]])
  {
    hide EncodeDigits, Denotes, URL_LETTERS, Letter, ToUrl, Pow;
    Pow64();
    EncodeDenotes(bytes, 6);
    UrlTextIsBody(bytes);
    var ds, s := EncodeDigits(bytes, 6), UrlText(bytes);
    UrlLetter(0);
    forall i | 0 <= i < |s| ensures ds[i] < 64 && s[i] == URL_LETTERS[ds[i]] { UrlLetter(ds[i]); }
  }

  /** The padding computed from the length is exactly what was stripped: the text handed to `atob` is the
      text `btoa` produced. */
  lemma PaddingRestored(bytes: seq<Byte>)
    ensures var padded := Mapped(UrlText(bytes), FromUrl);
            padded + Fill(|padded|) == Encode(bytes)
  {
    UrlTextIsBody(bytes);
    BodyBack(bytes);
    var b := Body(bytes);
    forall i | 0 <= i < |b| ensures FromUrl(ToUrl(b[i])) == b[i] { assert Sextet(b[i]).Some?; }
    assert Mapped(UrlText(bytes), FromUrl) == b;
  }

  /** Every buffer survives the trip through base64url. */
  lemma UrlRoundTrip(bytes: seq<Byte>)
    ensures UrlBytes(UrlText(bytes)) == Some(bytes)
  {
    PaddingRestored(bytes);
    AtobRoundTrip(bytes);
  }

  /** Text in either alphabet decodes exactly when its length is not 1 modulo 4. */
  lemma DecodableLengths(value: string)
    requires forall i :: 0 <= i < |value| ==> Sextet(FromUrl(value[i])).Some?
    ensures UrlBytes(value).Some? <==> |value| % 4 != 1
  {
    hide DecodeDigits, Fill;
    var padded := Mapped(value, FromUrl);
    var t := padded + Fill(|padded|);
    assert AllLetters(padded);
    LettersNoFill(padded);
    forall i | 0 <= i < |t| ensures !IsSpace(t[i]) {
      if i < |padded| { assert Sextet(padded[i]).Some?; }
    }
    NoSpace(t);
    StripFilled(padded);
  }
}
