/** Byte strings: big-endian numbers as `struct` packs them, the byte order that
    Python's `<` uses, and hexadecimal text as `bytes.hex` / `bytes.fromhex` use it. */
module Bytes {
  type Byte = b: int | 0 <= b < 256
  type ByteString = seq<Byte>

  function Pow256(k: nat): (p: nat)
    ensures p > 0
  {
    if k == 0 then 1 else 256 * Pow256(k - 1)
  }

  /** `n` as `width` bytes, most significant first. */
  function Pack(n: nat, width: nat): (s: ByteString)
    requires n < Pow256(width)
    ensures |s| == width
  {
    if width == 0 then [] else Pack(n / 256, width - 1) + [n % 256]
  }

  function Unpack(s: ByteString): nat {
    if s == [] then 0 else 256 * Unpack(s[..|s| - 1]) + s[|s| - 1]
  }

  lemma {:induction false} UnpackPack(n: nat, width: nat)
    requires n < Pow256(width)
    ensures Unpack(Pack(n, width)) == n
  {
    if width == 0 {
    } else {
      UnpackPack(n / 256, width - 1);
      var s := Pack(n, width);
      assert s[..|s| - 1] == Pack(n / 256, width - 1);
    }
  }

  lemma {:induction false} PackUnpack(s: ByteString)
    ensures Unpack(s) < Pow256(|s|) && Pack(Unpack(s), |s|) == s
  {
    if s == [] {
    } else {
      var front, last := s[..|s| - 1], s[|s| - 1];
      PackUnpack(front);
      assert Unpack(s) == 256 * Unpack(front) + last;
      assert Unpack(s) / 256 == Unpack(front) && Unpack(s) % 256 == last;
      assert s == front + [last];
    }
  }

  /** The order is big-endian: what comes first weighs more than all that follows. */
  lemma {:induction false} UnpackConcat(a: ByteString, b: ByteString)
    ensures Unpack(a + b) == Unpack(a) * Pow256(|b|) + Unpack(b)
  {
    if b == [] {
      assert a + b == a;
    } else {
      var front, last := b[..|b| - 1], b[|b| - 1];
      UnpackConcat(a, front);
      assert (a + b)[..|a + b| - 1] == a + front;
      var weight := Pow256(|front|);
      assert Unpack(a + b) == 256 * (Unpack(a) * weight + Unpack(front)) + last;
      assert Unpack(a) * (256 * weight) == 256 * (Unpack(a) * weight);
    }
  }

  /** The order of Python's `bytes.__lt__`. */
  predicate Less(a: ByteString, b: ByteString) {
    b != [] && (a == [] || a[0] < b[0] || (a[0] == b[0] && Less(a[1..], b[1..])))
  }

  lemma {:induction false} LessTrichotomy(a: ByteString, b: ByteString)
    ensures Less(a, b) <==> a != b && !Less(b, a)
  {
    if a == [] || b == [] || a[0] != b[0] {
    } else {
      LessTrichotomy(a[1..], b[1..]);
      assert a == [a[0]] + a[1..] && b == [b[0]] + b[1..];
    }
  }

  lemma {:induction false} LessTransitive(a: ByteString, b: ByteString, c: ByteString)
    requires Less(a, b) && Less(b, c)
    ensures Less(a, c)
  {
    if a != [] && a[0] == b[0] == c[0] {
      LessTransitive(a[1..], b[1..], c[1..]);
    }
  }

  /** It is the lexicographic order: at the first difference the smaller byte decides, and
      a proper prefix is smaller. */
  lemma {:induction false} LessExactly(a: ByteString, b: ByteString)
    ensures Less(a, b) <==>
              exists k :: 0 <= k <= |a| && k < |b| && a[..k] == b[..k] && (k == |a| || a[k] < b[k])
  {
    if a == [] && b != [] {
      assert a[..0] == b[..0];
    } else if a != [] && b != [] {
      LessExactly(a[1..], b[1..]);
      if a[0] < b[0] {
        assert a[..0] == b[..0];
      }
      if a[0] == b[0] {
        LessTail(a, b);
      } else {
        forall k | 0 < k <= |a| && k <= |b|
          ensures a[..k] != b[..k]
        {
          assert a[..k][0] != b[..k][0];
        }
      }
    }
  }

  lemma LessTail(a: ByteString, b: ByteString)
    requires a != [] && b != [] && a[0] == b[0]
    ensures (exists k :: 0 <= k <= |a| && k < |b| && a[..k] == b[..k] && (k == |a| || a[k] < b[k])) <==>
            (exists k :: 0 <= k <= |a[1..]| && k < |b[1..]| && a[1..][..k] == b[1..][..k] &&
                         (k == |a[1..]| || a[1..][k] < b[1..][k]))
  {
    if k :| 0 <= k <= |a| && k < |b| && a[..k] == b[..k] && (k == |a| || a[k] < b[k]) {
      assert k > 0;
      assert a[1..][..k - 1] == a[..k][1..] && b[1..][..k - 1] == b[..k][1..];
    }
    if k :| 0 <= k <= |a[1..]| && k < |b[1..]| && a[1..][..k] == b[1..][..k] && (k == |a[1..]| || a[1..][k] < b[1..][k]) {
      assert a[..k + 1] == [a[0]] + a[1..][..k] && b[..k + 1] == [b[0]] + b[1..][..k];
      assert k + 1 == |a| || a[k + 1] < b[k + 1];
    }
  }

  const HEX_DIGITS: string := "0123456789abcdef"

  function Hex(s: ByteString): string {
    if s == [] then "" else [HEX_DIGITS[s[0] / 16], HEX_DIGITS[s[0] % 16]] + Hex(s[1..])
  }

  function Digit(c: char): (d: int)
    ensures -1 <= d < 16
  {
    if '0' <= c <= '9' then c as int - '0' as int
    else if 'a' <= c <= 'f' then c as int - 'a' as int + 10
    else if 'A' <= c <= 'F' then c as int - 'A' as int + 10
    else -1
  }

  predicate IsSpace(c: char) {
    c == ' ' || c == '\t' || c == '\n' || c == '\r' || c == 11 as char || c == 12 as char
  }

  datatype Option<+T> = None | Some(value: T)

  /** `bytes.fromhex`: blanks are skipped between bytes; anything else that is not
      a pair of digits is a ValueError, here None. */
  function FromHex(t: string): Option<ByteString> {
    if t == "" then Some([])
    else if IsSpace(t[0]) then FromHex(t[1..])
    else if |t| < 2 || Digit(t[0]) < 0 || Digit(t[1]) < 0 then None
    else
      match FromHex(t[2..])
      case None => None
      case Some(rest) => Some([16 * Digit(t[0]) + Digit(t[1])] + rest)
  }

  lemma HexDigit(d: int)
    requires 0 <= d < 16
    ensures Digit(HEX_DIGITS[d]) == d && !IsSpace(HEX_DIGITS[d])
  {
  }

  lemma FromHexPair(b: Byte, rest: string)
    ensures FromHex([HEX_DIGITS[b / 16], HEX_DIGITS[b % 16]] + rest) ==
            match FromHex(rest) case None => None case Some(s) => Some([b] + s)
  {
    HexDigit(b / 16);
    HexDigit(b % 16);
    var t := [HEX_DIGITS[b / 16], HEX_DIGITS[b % 16]] + rest;
    assert t[2..] == rest;
  }

  lemma {:induction false} FromHexHex(s: ByteString)
    ensures FromHex(Hex(s)) == Some(s)
  {
    if s == [] {
    } else {
      FromHexHex(s[1..]);
      FromHexPair(s[0], Hex(s[1..]));
      assert s == [s[0]] + s[1..];
    }
  }

  /** The text without its blanks. */
  function NoBlanks(t: string): string {
    if t == "" then "" else (if IsSpace(t[0]) then "" else [t[0]]) + NoBlanks(t[1..])
  }

  lemma DigitChar(c: char)
    requires Digit(c) >= 0
    ensures HEX_DIGITS[Digit(c)] == Lower([c])[0] && !IsSpace(c)
  {
  }

  lemma LowerConcat(a: string, b: string)
    ensures Lower(a + b) == Lower(a) + Lower(b)
  {
  }

  /** What `fromhex` accepts is, up to case and blanks, the hexadecimal text of its result. */
  lemma {:induction false} FromHexOnto(t: string)
    requires FromHex(t).Some?
    ensures Hex(FromHex(t).value) == Lower(NoBlanks(t))
  {
    if t == "" {
    } else if IsSpace(t[0]) {
      FromHexOnto(t[1..]);
      assert "" + NoBlanks(t[1..]) == NoBlanks(t[1..]);
    } else {
      var rest := t[2..];
      FromHexOnto(rest);
      DigitChar(t[0]);
      DigitChar(t[1]);
      assert t[1..][1..] == rest;
      assert NoBlanks(t) == [t[0]] + ([t[1]] + NoBlanks(rest));
      LowerConcat([t[0]], [t[1]] + NoBlanks(rest));
      LowerConcat([t[1]], NoBlanks(rest));
      var b := FromHex(t).value;
      assert b[1..] == FromHex(rest).value;
      assert b[0] / 16 == Digit(t[0]) && b[0] % 16 == Digit(t[1]);
      assert Lower([t[0]]) == [HEX_DIGITS[Digit(t[0])]] && Lower([t[1]]) == [HEX_DIGITS[Digit(t[1])]];
    }
  }

  lemma {:induction false} FromHexBlanks(pad: string, t: string)
    requires Blank(pad)
    ensures FromHex(pad + t) == FromHex(t)
  {
    if pad == "" {
      assert pad + t == t;
    } else {
      FromHexBlanks(pad[1..], t);
      assert (pad + t)[1..] == pad[1..] + t;
    }
  }

  /** What two texts give together, when the first is complete. */
  function Joined(a: ByteString, b: Option<ByteString>): Option<ByteString> {
    match b case None => None case Some(s) => Some(a + s)
  }

  lemma FromHexTwo(c: char, d: char, t: string)
    requires Digit(c) >= 0 && Digit(d) >= 0
    ensures FromHex([c, d] + t) == Joined([16 * Digit(c) + Digit(d)], FromHex(t))
  {
    assert ([c, d] + t)[2..] == t;
  }

  lemma JoinedTwice(a: ByteString, b: ByteString, c: Option<ByteString>)
    ensures Joined(a, Joined(b, c)) == Joined(a + b, c)
  {
    if c.Some? {
      assert a + (b + c.value) == a + b + c.value;
    }
  }

  lemma JoinedEmpty(c: Option<ByteString>)
    ensures Joined([], c) == c
  {
    if c.Some? {
      assert [] + c.value == c.value;
    }
  }

  lemma {:induction false} FromHexTwoFirst(c: char, d: char, rest: string, b: string)
    requires Digit(c) >= 0 && Digit(d) >= 0 && FromHex(rest).Some?
    requires FromHex(rest + b) == Joined(FromHex(rest).value, FromHex(b))
    ensures FromHex([c, d] + rest).Some?
    ensures FromHex([c, d] + rest + b) == Joined(FromHex([c, d] + rest).value, FromHex(b))
  {
    FromHexTwo(c, d, rest);
    FromHexTwo(c, d, rest + b);
    JoinedTwice([16 * Digit(c) + Digit(d)], FromHex(rest).value, FromHex(b));
    assert [c, d] + rest + b == [c, d] + (rest + b);
  }

  lemma FromHexSpace(c: char, t: string)
    requires IsSpace(c)
    ensures FromHex([c] + t) == FromHex(t)
  {
    assert ([c] + t)[1..] == t;
  }

  lemma FromHexParts(a: string)
    requires FromHex(a).Some? && a != "" && !IsSpace(a[0])
    ensures |a| >= 2 && Digit(a[0]) >= 0 && Digit(a[1]) >= 0 && FromHex(a[2..]).Some? && a == [a[0], a[1]] + a[2..]
  {
  }

  lemma {:induction false} FromHexAppend(a: string, b: string)
    requires FromHex(a).Some?
    ensures FromHex(a + b) == Joined(FromHex(a).value, FromHex(b))
  {
    if a == "" {
      assert a + b == b;
      JoinedEmpty(FromHex(b));
    } else if IsSpace(a[0]) {
      var c, rest := a[0], a[1..];
      assert a == [c] + rest && a + b == [c] + (rest + b);
      FromHexSpace(c, rest);
      FromHexSpace(c, rest + b);
      FromHexAppend(rest, b);
    } else {
      FromHexParts(a);
      FromHexAppend(a[2..], b);
      FromHexTwoFirst(a[0], a[1], a[2..], b);
    }
  }

  /** Blanks may stand before, behind and between bytes. */
  lemma FromHexConcat(a: string, pad: string, b: string)
    requires FromHex(a).Some? && Blank(pad)
    ensures FromHex(a + pad + b) == Joined(FromHex(a).value, FromHex(b))
  {
    FromHexBlanks(pad, b);
    FromHexAppend(a, pad + b);
    assert a + pad + b == a + (pad + b);
  }

  lemma {:induction false} FromHexLower(t: string)
    ensures FromHex(Lower(t)) == FromHex(t)
  {
    var u := Lower(t);
    if t == "" {
    } else if IsSpace(t[0]) {
      FromHexLower(t[1..]);
      assert u[1..] == Lower(t[1..]);
    } else if |t| >= 2 {
      FromHexLower(t[2..]);
      assert u[2..] == Lower(t[2..]);
    }
  }

  /** `str.strip` over the blanks above. */
  function Strip(t: string): string {
    if t == "" then ""
    else if IsSpace(t[0]) then Strip(t[1..])
    else if IsSpace(t[|t| - 1]) then Strip(t[..|t| - 1])
    else t
  }

  lemma {:induction false} HexHasNoBlanks(s: ByteString)
    ensures forall i :: 0 <= i < |Hex(s)| ==> !IsSpace(Hex(s)[i])
    ensures |Hex(s)| == 2 * |s|
  {
    if s == [] {
    } else {
      HexHasNoBlanks(s[1..]);
      HexDigit(s[0] / 16);
      HexDigit(s[0] % 16);
    }
  }

  lemma StripHex(s: ByteString)
    ensures Strip(Hex(s)) == Hex(s)
  {
    HexHasNoBlanks(s);
  }

  /** `str.lower` of ASCII text. */
  function Lower(s: string): (t: string)
    ensures |t| == |s|
  {
    seq(|s|, i requires 0 <= i < |s| => if 'A' <= s[i] <= 'Z' then s[i] - 'A' + 'a' else s[i])
  }

  predicate Blank(t: string) {
    forall i :: 0 <= i < |t| ==> IsSpace(t[i])
  }

  lemma {:induction false} StripBefore(pad: string, t: string)
    requires Blank(pad)
    ensures Strip(pad + t) == Strip(t)
  {
    if pad == "" {
      assert pad + t == t;
    } else {
      assert (pad + t)[1..] == pad[1..] + t;
      StripBefore(pad[1..], t);
    }
  }

  lemma {:induction false} StripBehind(t: string, pad: string)
    requires Blank(pad)
    ensures Strip(t + pad) == Strip(t)
    decreases |t| + |pad|
  {
    if pad == "" {
      assert t + pad == t;
    } else if t == "" {
      assert t + pad == pad + t;
      StripBefore(pad, t);
    } else if IsSpace(t[0]) {
      assert (t + pad)[1..] == t[1..] + pad;
      StripBehind(t[1..], pad);
    } else {
      assert (t + pad)[..|t + pad| - 1] == t + pad[..|pad| - 1];
      StripBehind(t, pad[..|pad| - 1]);
    }
  }

  /** Blanks around a text do not matter to `strip`. */
  lemma StripPadded(before: string, t: string, behind: string)
    requires Blank(before) && Blank(behind)
    ensures Strip(before + t + behind) == Strip(t)
  {
    StripBehind(before + t, behind);
    StripBefore(before, t);
  }

  /** Stripping and lowering commute. */
  lemma {:induction false} LowerStrip(t: string)
    ensures Lower(Strip(t)) == Strip(Lower(t))
  {
    var u := Lower(t);
    if t == "" {
    } else if IsSpace(t[0]) {
      assert u[1..] == Lower(t[1..]);
      LowerStrip(t[1..]);
    } else if IsSpace(t[|t| - 1]) {
      assert u[..|u| - 1] == Lower(t[..|t| - 1]);
      LowerStrip(t[..|t| - 1]);
    }
  }

  /** What `strip` leaves starts and ends with no blank. */
  lemma {:induction false} StripBare(t: string)
    ensures Strip(t) != "" ==> !IsSpace(Strip(t)[0]) && !IsSpace(Strip(t)[|Strip(t)| - 1])
  {
    if t == "" {
    } else if IsSpace(t[0]) {
      StripBare(t[1..]);
    } else if IsSpace(t[|t| - 1]) {
      StripBare(t[..|t| - 1]);
    }
  }

  /** The blanks are tab, line feed, the two next to it, carriage return and space. */
  lemma BlankChars(c: char)
    ensures IsSpace(c) <==> c as int in {9, 10, 11, 12, 13, 32}
  {
  }

  /** Lowering maps the alphabet, leaves no capital, and is done after once. */
  lemma LowerExactly(s: string)
    ensures Lower("ABCDEFGHIJKLMNOPQRSTUVWXYZ") == "abcdefghijklmnopqrstuvwxyz"
    ensures forall i :: 0 <= i < |s| ==> !('A' <= Lower(s)[i] <= 'Z') && ('A' <= s[i] <= 'Z' || Lower(s)[i] == s[i])
    ensures Lower(Lower(s)) == Lower(s)
  {
  }
}
