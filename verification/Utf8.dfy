/** UTF-8 as in RFC 3629: when the first bytes of an encoded text are text themselves, as readers of log lines
    demand (BufRead::lines in src/sql/database.rs and src/persistence.rs). */
module Utf8 {

  // ------------------------------------------------------------------------- encoding

  newtype CodePoint = c: int | 0 <= c < 0xD800 || 0xDFFF < c < 0x11_0000

  /** Section 3 of RFC 3629. */
  function Bytes(c: CodePoint): (r: seq<nat>)
    ensures 1 <= |r| <= 4
  {
    var i := c as int;
    if i < 0x80 then [i]
    else if i < 0x800 then [0xC0 + i / 64, 0x80 + i % 64]
    else if i < 0x1_0000 then [0xE0 + i / 4096, 0x80 + i / 64 % 64, 0x80 + i % 64]
    else [0xF0 + i / 26_2144, 0x80 + i / 4096 % 64, 0x80 + i / 64 % 64, 0x80 + i % 64]
  }

  function Encode(s: seq<CodePoint>): seq<nat> {
    if s == [] then [] else Bytes(s[0]) + Encode(s[1..])
  }

  // ------------------------------------------------------------------------- validity

  /** How many bytes a character has that begins with this one; none begins so when it is 0. */
  function Length(lead: nat): nat {
    if lead < 0x80 then 1
    else if 0xC2 <= lead <= 0xDF then 2
    else if 0xE0 <= lead <= 0xEF then 3
    else if 0xF0 <= lead <= 0xF4 then 4
    else 0
  }

  predicate IsTail(b: nat) {
    0x80 <= b <= 0xBF
  }

  /** Neither overlong nor a surrogate nor beyond the last code point. */
  predicate IsSecond(lead: nat, b: nat) {
    && IsTail(b)
    && (lead == 0xE0 ==> 0xA0 <= b) && (lead == 0xED ==> b <= 0x9F)
    && (lead == 0xF0 ==> 0x90 <= b) && (lead == 0xF4 ==> b <= 0x8F)
  }

  /** Section 4 of RFC 3629: the bytes begin with a whole character. */
  predicate BeginsWell(bytes: seq<nat>) {
    bytes != []
    && var n := Length(bytes[0]);
    && 0 < n <= |bytes|
    && (n > 1 ==> IsSecond(bytes[0], bytes[1]))
    && (n > 2 ==> IsTail(bytes[2]))
    && (n > 3 ==> IsTail(bytes[3]))
  }

  predicate IsText(bytes: seq<nat>) {
    bytes == [] || (BeginsWell(bytes) && IsText(bytes[Length(bytes[0])..]))
  }

  // --------------------------------------------------------------------- whole characters

  lemma EncodedBegins(c: CodePoint)
    ensures BeginsWell(Bytes(c)) && Length(Bytes(c)[0]) == |Bytes(c)|
  {
    var i := c as int;
    if 0x1_0000 <= i {
      assert i / 26_2144 == 0 ==> i / 4096 % 64 >= 16;
      assert i / 26_2144 == 4 ==> i / 4096 % 64 <= 15;
    } else if 0x800 <= i {
      assert i / 4096 == 0 ==> i / 64 % 64 >= 32;
      assert i / 4096 == 13 ==> i / 64 % 64 <= 31;
    }
  }

  /** What follows a character decides. */
  lemma TextAfter(c: CodePoint, rest: seq<nat>)
    ensures IsText(Bytes(c) + rest) <==> IsText(rest)
  {
    EncodedBegins(c);
    var all := Bytes(c) + rest;
    assert BeginsWell(all) && all[|Bytes(c)|..] == rest;
  }

  predicate StartsCharacter(bytes: seq<nat>) {
    bytes == [] || !IsTail(bytes[0])
  }

  /** A part of a character, followed by nothing or by the start of a character, is not text. */
  lemma PartIsNoText(c: CodePoint, n: nat, rest: seq<nat>)
    requires 0 < n < |Bytes(c)| && StartsCharacter(rest)
    ensures !IsText(Bytes(c)[..n] + rest)
  {
    EncodedBegins(c);
    var all := Bytes(c)[..n] + rest;
    assert all[0] == Bytes(c)[0];
    if rest != [] {
      assert all[n] == rest[0];
    }
  }

  // -------------------------------------------------------------------------------- cuts

  /** The first n bytes end with a character. */
  predicate IsBoundary(s: seq<CodePoint>, n: nat) {
    n == 0 || (s != [] && |Bytes(s[0])| <= n && IsBoundary(s[1..], n - |Bytes(s[0])|))
  }

  lemma PrefixStarts(s: seq<CodePoint>, n: nat)
    requires n <= |Encode(s)|
    ensures StartsCharacter(Encode(s)[..n])
  {
    if s != [] {
      EncodedBegins(s[0]);
    }
  }

  /** The first bytes of an encoded text, followed by nothing or by the start of a character, are text if and only
      if they end with a character and what follows is text. */
  lemma {:induction false} PrefixAndMore(s: seq<CodePoint>, n: nat, rest: seq<nat>)
    requires n <= |Encode(s)| && StartsCharacter(rest)
    ensures IsText(Encode(s)[..n] + rest) <==> IsBoundary(s, n) && IsText(rest)
    decreases s
  {
    if n == 0 {
      assert Encode(s)[..n] + rest == rest;
    } else {
      var first := Bytes(s[0]);
      if |first| <= n {
        PrefixAndMore(s[1..], n - |first|, rest);
        TextAfter(s[0], Encode(s[1..])[..n - |first|] + rest);
        assert Encode(s)[..n] + rest == first + (Encode(s[1..])[..n - |first|] + rest);
      } else {
        assert Encode(s)[..n] == first[..n];
        PartIsNoText(s[0], n, rest);
      }
    }
  }

  lemma PrefixIsTextIffBoundary(s: seq<CodePoint>, n: nat)
    requires n <= |Encode(s)|
    ensures IsText(Encode(s)[..n]) <==> IsBoundary(s, n)
  {
    PrefixAndMore(s, n, []);
    assert Encode(s)[..n] + [] == Encode(s)[..n];
  }

  /** A torn line that is continued by another, itself whole or torn, is text exactly when both parts are. */
  lemma ContinuedIsTextIffBoth(s: seq<CodePoint>, n: nat, t: seq<CodePoint>, m: nat)
    requires n <= |Encode(s)| && m <= |Encode(t)|
    ensures IsText(Encode(s)[..n] + Encode(t)[..m]) <==> IsText(Encode(s)[..n]) && IsText(Encode(t)[..m])
  {
    PrefixStarts(t, m);
    PrefixAndMore(s, n, Encode(t)[..m]);
    PrefixIsTextIffBoundary(s, n);
  }

  predicate IsAscii(s: seq<CodePoint>) {
    forall i :: 0 <= i < |s| ==> s[i] < 0x80
  }

  lemma {:induction false} AsciiIsBoundary(s: seq<CodePoint>, n: nat)
    requires IsAscii(s) && n <= |Encode(s)|
    ensures IsBoundary(s, n)
    decreases s
  {
    if n > 0 {
      AsciiIsBoundary(s[1..], n - 1);
    }
  }

  lemma {:induction false} OtherIsCut(s: seq<CodePoint>) returns (n: nat)
    requires !IsAscii(s)
    ensures 0 < n < |Encode(s)| && !IsBoundary(s, n)
    decreases s
  {
    if s[0] >= 0x80 {
      n := 1;
    } else {
      var i :| 0 <= i < |s| && s[i] >= 0x80;
      assert s[1..][i - 1] == s[i];
      n := OtherIsCut(s[1..]);
      n := n + 1;
    }
  }

  /** Every cut of an encoded text leaves text if and only if the text is ASCII. */
  lemma EveryCutIsTextIffAscii(s: seq<CodePoint>)
    ensures (forall n :: 0 <= n <= |Encode(s)| ==> IsText(Encode(s)[..n])) <==> IsAscii(s)
  {
    if IsAscii(s) {
      forall n | 0 <= n <= |Encode(s)| ensures IsText(Encode(s)[..n]) {
        AsciiIsBoundary(s, n);
        PrefixIsTextIffBoundary(s, n);
      }
    } else {
      var n := OtherIsCut(s);
      PrefixIsTextIffBoundary(s, n);
    }
  }
}
