/** The standard encoding of section 4 of RFC 4648, as encoding/base64 reads and writes it. */
module Base64 {
  import opened Results

  function Char(n: int): (c: char)
    requires 0 <= n < 64
    ensures Value(c) == Some(n) && c != '=' && c != '\r' && c != '\n'
  {
    if n < 26 then (n + 'A' as int) as char
    else if n < 52 then (n - 26 + 'a' as int) as char
    else if n < 62 then (n - 52 + '0' as int) as char
    else if n == 62 then '+'
    else '/'
  }

  function Value(c: char): (r: Option<int>)
    ensures r.Some? ==> 0 <= r.value < 64
  {
    if 'A' <= c <= 'Z' then Some(c as int - 'A' as int)
    else if 'a' <= c <= 'z' then Some(c as int - 'a' as int + 26)
    else if '0' <= c <= '9' then Some(c as int - '0' as int + 52)
    else if c == '+' then Some(62)
    else if c == '/' then Some(63)
    else None
  }

  function Encode(b: seq<Byte>): (s: string)
    ensures forall i :: 0 <= i < |s| ==> s[i] != '\r' && s[i] != '\n'
  {
    if |b| == 0 then []
    else if |b| == 1 then [Char(b[0] / 4), Char(b[0] % 4 * 16), '=', '=']
    else if |b| == 2 then [Char(b[0] / 4), Char(b[0] % 4 * 16 + b[1] / 16), Char(b[1] % 16 * 4), '=']
    else
      [Char(b[0] / 4), Char(b[0] % 4 * 16 + b[1] / 16), Char(b[1] % 16 * 4 + b[2] / 64), Char(b[2] % 64)]
      + Encode(b[3..])
  }

  /** Line breaks anywhere in the text are passed over. */
  function WithoutBreaks(s: string): string {
    if s == [] then []
    else if s[0] == '\r' || s[0] == '\n' then WithoutBreaks(s[1..])
    else [s[0]] + WithoutBreaks(s[1..])
  }

  /** The three bytes of four sextets. */
  function Quantum(v0: int, v1: int, v2: int, v3: int): (b: seq<Byte>)
    requires 0 <= v0 < 64 && 0 <= v1 < 64 && 0 <= v2 < 64 && 0 <= v3 < 64
    ensures |b| == 3
  {
    [v0 * 4 + v1 / 16, v1 % 16 * 16 + v2 / 4, v2 % 4 * 64 + v3]
  }

  function DecodeQuanta(s: string): Option<seq<Byte>> {
    if s == [] then Some([])
    else if |s| < 4 then None
    else
      var (v0, v1, v2, v3) := (Value(s[0]), Value(s[1]), Value(s[2]), Value(s[3]));
      if v0.None? || v1.None? then None
      else if |s| == 4 && s[2] == '=' && s[3] == '=' then Some(Quantum(v0.value, v1.value, 0, 0)[..1])
      else if v2.None? then None
      else if |s| == 4 && s[3] == '=' then
        Some(Quantum(v0.value, v1.value, v2.value, 0)[..2])
      else if v3.None? then None
      else
        var rest := DecodeQuanta(s[4..]);
        if rest.None? then None else Some(Quantum(v0.value, v1.value, v2.value, v3.value) + rest.value)
  }

  /** StdEncoding.DecodeString. */
  function Decode(s: string): Option<seq<Byte>> {
    DecodeQuanta(WithoutBreaks(s))
  }

  lemma {:induction false} NoBreaksToSkip(s: string)
    requires forall i :: 0 <= i < |s| ==> s[i] != '\r' && s[i] != '\n'
    ensures WithoutBreaks(s) == s
  {
    if s != [] {
      NoBreaksToSkip(s[1..]);
    }
  }

  lemma FirstByte(b0: Byte, b1: Byte)
    ensures 0 <= b0 % 4 * 16 + b1 / 16 < 64 && b0 / 4 * 4 + (b0 % 4 * 16 + b1 / 16) / 16 == b0
  {
    assert 0 <= b1 / 16 < 16;
  }

  lemma SecondByte(b0: Byte, b1: Byte, b2: Byte)
    ensures 0 <= b1 % 16 * 4 + b2 / 64 < 64
    ensures (b0 % 4 * 16 + b1 / 16) % 16 * 16 + (b1 % 16 * 4 + b2 / 64) / 4 == b1
  {
    assert 0 <= b1 / 16 < 16 && 0 <= b2 / 64 < 4;
    assert (b0 % 4 * 16 + b1 / 16) % 16 == b1 / 16;
    assert (b1 % 16 * 4 + b2 / 64) / 4 == b1 % 16;
  }

  lemma ThirdByte(b1: Byte, b2: Byte)
    ensures (b1 % 16 * 4 + b2 / 64) % 4 * 64 + b2 % 64 == b2
  {
    assert 0 <= b2 / 64 < 4;
    assert (b1 % 16 * 4 + b2 / 64) % 4 == b2 / 64;
  }

  /** Three bytes cut into sextets and put together again. */
  lemma SextetsOfBytes(b0: Byte, b1: Byte, b2: Byte)
    ensures 0 <= b0 % 4 * 16 + b1 / 16 < 64 && 0 <= b1 % 16 * 4 + b2 / 64 < 64
    ensures Quantum(b0 / 4, b0 % 4 * 16 + b1 / 16, b1 % 16 * 4 + b2 / 64, b2 % 64) == [b0, b1, b2]
  {
    FirstByte(b0, b1);
    SecondByte(b0, b1, b2);
    ThirdByte(b1, b2);
  }

  lemma SextetsOfTwoBytes(b0: Byte, b1: Byte)
    ensures 0 <= b0 % 4 * 16 + b1 / 16 < 64 && 0 <= b1 % 16 * 4 < 64
    ensures Quantum(b0 / 4, b0 % 4 * 16 + b1 / 16, b1 % 16 * 4, 0)[..2] == [b0, b1]
  {
    SextetsOfBytes(b0, b1, 0);
    hide Quantum;
    assert b1 % 16 * 4 + 0 / 64 == b1 % 16 * 4;
  }

  lemma SextetsOfOneByte(b0: Byte)
    ensures Quantum(b0 / 4, b0 % 4 * 16, 0, 0)[..1] == [b0]
  {
    SextetsOfBytes(b0, 0, 0);
    hide Quantum;
  }

  /** A full quantum decodes by itself, whatever follows. */
  lemma DecodeFullQuantum(v0: int, v1: int, v2: int, v3: int, rest: string)
    requires 0 <= v0 < 64 && 0 <= v1 < 64 && 0 <= v2 < 64 && 0 <= v3 < 64 && DecodeQuanta(rest).Some?
    ensures DecodeQuanta([Char(v0), Char(v1), Char(v2), Char(v3)] + rest)
         == Some(Quantum(v0, v1, v2, v3) + DecodeQuanta(rest).value)
  {
    hide Char, Value, Quantum;
    var s := [Char(v0), Char(v1), Char(v2), Char(v3)] + rest;
    assert s[4..] == rest;
  }

  lemma DecodeOneByte(v0: int, v1: int)
    requires 0 <= v0 < 64 && 0 <= v1 < 64
    ensures DecodeQuanta([Char(v0), Char(v1), '=', '=']) == Some(Quantum(v0, v1, 0, 0)[..1])
  {
    hide Char, Value, Quantum;
  }

  lemma DecodeTwoBytes(v0: int, v1: int, v2: int)
    requires 0 <= v0 < 64 && 0 <= v1 < 64 && 0 <= v2 < 64
    ensures DecodeQuanta([Char(v0), Char(v1), Char(v2), '=']) == Some(Quantum(v0, v1, v2, 0)[..2])
  {
    hide Char, Value, Quantum;
  }

  lemma {:induction false} DecodeQuantaOfEncoded(b: seq<Byte>)
    ensures DecodeQuanta(Encode(b)) == Some(b)
  {
    hide Char, Value, DecodeQuanta, Quantum;
    if |b| == 0 {
      DecodeNothing();
    } else if |b| == 1 {
      SextetsOfOneByte(b[0]);
      DecodeOneByte(b[0] / 4, b[0] % 4 * 16);
      assert b == [b[0]];
    } else if |b| == 2 {
      SextetsOfTwoBytes(b[0], b[1]);
      DecodeTwoBytes(b[0] / 4, b[0] % 4 * 16 + b[1] / 16, b[1] % 16 * 4);
      assert b == [b[0], b[1]];
    } else {
      SextetsOfBytes(b[0], b[1], b[2]);
      DecodeQuantaOfEncoded(b[3..]);
      DecodeFullQuantum(b[0] / 4, b[0] % 4 * 16 + b[1] / 16, b[1] % 16 * 4 + b[2] / 64, b[2] % 64, Encode(b[3..]));
      assert b == [b[0], b[1], b[2]] + b[3..];
    }
  }

  lemma DecodeNothing()
    ensures DecodeQuanta([]) == Some([])
  {
  }

  /** Every byte string comes back from its encoding. */
  lemma DecodeOfEncoded(b: seq<Byte>)
    ensures Decode(Encode(b)) == Some(b)
  {
    NoBreaksToSkip(Encode(b));
    DecodeQuantaOfEncoded(b);
  }

  lemma {:induction false} BreaksAppend(s: string, t: string)
    ensures WithoutBreaks(s + t) == WithoutBreaks(s) + WithoutBreaks(t)
  {
    if s == [] {
      assert s + t == t;
    } else {
      assert (s + t)[1..] == s[1..] + t;
      BreaksAppend(s[1..], t);
    }
  }

  /** A line break anywhere in the text makes no difference. */
  lemma BreaksArePassedOver(s: string, t: string)
    ensures Decode(s + "\n" + t) == Decode(s + t) == Decode(s + "\r" + t)
  {
    BreaksAppend(s + "\n", t);
    BreaksAppend(s, "\n");
    BreaksAppend(s + "\r", t);
    BreaksAppend(s, "\r");
    BreaksAppend(s, t);
    assert "\n"[1..] == "" && "\r"[1..] == "";
    assert WithoutBreaks("\n") == [] && WithoutBreaks("\r") == [];
    hide WithoutBreaks, DecodeQuanta;
    assert WithoutBreaks(s) + [] == WithoutBreaks(s);
  }

  // ----- What RFC 4648 says of the alphabet and of known texts -----

  /** Table 1 of section 4: four runs of successive characters, with these at their ends. */
  lemma AlphabetIsStandard()
    ensures Char(0) == 'A' && Char(25) == 'Z' && Char(26) == 'a' && Char(51) == 'z'
    ensures Char(52) == '0' && Char(61) == '9' && Char(62) == '+' && Char(63) == '/'
    ensures forall n :: 0 <= n < 61 && n != 25 && n != 51 ==> Char(n + 1) as int == Char(n) as int + 1
  {
  }

  lemma KnownCharacters()
    ensures Char(4) == 'E' && Char(5) == 'F' && Char(24) == 'Y' && Char(25) == 'Z' && Char(32) == 'g'
    ensures Char(38) == 'm' && Char(47) == 'v' && Char(50) == 'y' && Char(60) == '8' && Char(61) == '9'
  {
  }

  lemma ShortTexts()
    ensures Encode([102]) == "Zg==" && Encode([98]) == "Yg=="
    ensures Encode([102, 111]) == "Zm8=" && Encode([98, 97]) == "YmE=" && Encode([]) == ""
  {
    KnownCharacters();
    hide Char;
  }

  lemma EncodeWhole(b: seq<Byte>)
    requires |b| >= 3
    ensures Encode(b)
         == [Char(b[0] / 4), Char(b[0] % 4 * 16 + b[1] / 16), Char(b[1] % 16 * 4 + b[2] / 64), Char(b[2] % 64)]
            + Encode(b[3..])
  {
    hide Char;
  }

  lemma Foo(rest: seq<Byte>)
    ensures Encode([102, 111, 111] + rest) == "Zm9v" + Encode(rest)
  {
    hide *;
    EncodeWhole([102, 111, 111] + rest);
    assert ([102, 111, 111] + rest)[3..] == rest;
    KnownCharacters();
  }

  lemma Bar()
    ensures Encode([98, 97, 114]) == "YmFy"
  {
    hide *;
    EncodeWhole([98, 97, 114]);
    assert [98, 97, 114][3..] == [];
    KnownCharacters();
    ShortTexts();
  }

  /** The test vectors of section 10, over the bytes of "foobar". */
  lemma KnownTexts()
    ensures Encode([102]) == "Zg==" && Encode([102, 111]) == "Zm8=" && Encode([102, 111, 111]) == "Zm9v"
    ensures Encode([102, 111, 111, 98]) == "Zm9vYg==" && Encode([102, 111, 111, 98, 97]) == "Zm9vYmE="
    ensures Encode([102, 111, 111, 98, 97, 114]) == "Zm9vYmFy"
  {
    hide *;
    ShortTexts();
    Bar();
    Foo([]);
    Foo([98]);
    Foo([98, 97]);
    Foo([98, 97, 114]);
    assert [102, 111, 111] + [] == [102, 111, 111] && [102, 111, 111] + [98] == [102, 111, 111, 98];
    assert [102, 111, 111] + [98, 97] == [102, 111, 111, 98, 97];
    assert [102, 111, 111] + [98, 97, 114] == [102, 111, 111, 98, 97, 114];
  }
}
