/** Proof Key for Code Exchange (RFC 7636): the code verifier's shape, the
    base64url encoding of Appendix A and the S256 code challenge of
    section 4.2. */
module Pkce {
  import opened Wrappers
  import opened Php
  import Base64

  const Digits: string := "0123456789"
  const LowerLetters: string := "abcdefghijklmnopqrstuvwxyz"
  const UpperLetters: string := "ABCDEFGHIJKLMNOPQRSTUVWXYZ"

  /** The alphabet the provider draws verifier characters from, in its order:
      "0123456789abcdefghijklmnopqrstuvwxyzABCDEFGHIJKLMNOPQRSTUVWXYZ-._~". */
  const VerifierAlphabet: string := Digits + LowerLetters + UpperLetters + "-._~"

  /** `unreserved` of section 4.1 of RFC 7636: ALPHA / DIGIT / "-" / "." / "_" / "~". */
  predicate IsUnreserved(c: char)
  {
    'A' <= c <= 'Z' || 'a' <= c <= 'z' || '0' <= c <= '9' || c == '-' || c == '.' || c == '_' || c == '~'
  }

  /** A verifier as the provider generates it: 43 to 128 characters of VerifierAlphabet. */
  predicate IsPkceVerifier(v: string)
  {
    43 <= |v| <= 128 && forall i | 0 <= i < |v| :: v[i] in VerifierAlphabet
  }

  /** `code-verifier` and `code-challenge` of sections 4.1 and 4.2: 43*128unreserved. */
  predicate IsUnreservedString43To128(s: string)
  {
    43 <= |s| <= 128 && forall i | 0 <= i < |s| :: IsUnreserved(s[i])
  }

  lemma DigitAt(i: int)
    requires 0 <= i < 10
    ensures Digits[i] == ('0' as int + i) as char
  {
  }

  lemma LowerAt(i: int)
    requires 0 <= i < 26
    ensures LowerLetters[i] == ('a' as int + i) as char
  {
  }

  lemma UpperAt(i: int)
    requires 0 <= i < 26
    ensures UpperLetters[i] == ('A' as int + i) as char
  {
  }

  /** Position i of the alphabet, group by group. */
  lemma AlphabetAt(i: int)
    requires 0 <= i < 66
    ensures VerifierAlphabet[i] ==
      if i < 10 then ('0' as int + i) as char
      else if i < 36 then ('a' as int + (i - 10)) as char
      else if i < 62 then ('A' as int + (i - 36)) as char
      else "-._~"[i - 62]
  {
    if i < 10 {
      DigitAt(i);
    } else if i < 36 {
      LowerAt(i - 10);
    } else if i < 62 {
      UpperAt(i - 36);
    }
  }

  /** The provider's alphabet is exactly the 66 unreserved characters. */
  lemma VerifierAlphabetIsUnreserved(c: char)
    ensures |VerifierAlphabet| == 66
    ensures c in VerifierAlphabet <==> IsUnreserved(c)
  {
    var a := VerifierAlphabet;
    if c in a {
      var i :| 0 <= i < |a| && a[i] == c;
      AlphabetAt(i);
    }
    if '0' <= c <= '9' {
      AlphabetAt(c as int - '0' as int);
    } else if 'a' <= c <= 'z' {
      AlphabetAt(10 + c as int - 'a' as int);
    } else if 'A' <= c <= 'Z' {
      AlphabetAt(36 + c as int - 'A' as int);
    } else if c == '-' {
      AlphabetAt(62);
    } else if c == '.' {
      AlphabetAt(63);
    } else if c == '_' {
      AlphabetAt(64);
    } else if c == '~' {
      AlphabetAt(65);
    }
  }

  /** Every verifier the provider generates is a valid RFC 7636 code verifier. */
  lemma VerifierIsCodeVerifier(v: string)
    requires IsPkceVerifier(v)
    ensures IsUnreservedString43To128(v)
  {
    forall i | 0 <= i < |v|
      ensures IsUnreserved(v[i])
    {
      VerifierAlphabetIsUnreserved(v[i]);
    }
  }

  /** The URL- and filename-safe alphabet of section 5 of RFC 4648. */
  predicate IsBase64UrlChar(c: char)
  {
    'A' <= c <= 'Z' || 'a' <= c <= 'z' || '0' <= c <= '9' || c == '-' || c == '_'
  }

  /** The way back: `-` to `+` and `_` to `/`. */
  function FromUrlAlphabet(s: string): string
  {
    seq(|s|, i requires 0 <= i < |s| => if s[i] == '-' then '+' else if s[i] == '_' then '/' else s[i])
  }

  /** `strtr($s, '+/', '-_')`: the same length, no '+' or '/' left, standard
      base64 characters mapped into the URL-safe alphabet, padding kept, and
      FromUrlAlphabet undoing it on text without '-' or '_'. */
  function ToUrlAlphabet(s: string): (r: string)
    ensures |r| == |s|
    ensures '+' !in r && '/' !in r
    ensures forall i | 0 <= i < |s| && Base64.IsAlphabetChar(s[i]) :: IsBase64UrlChar(r[i])
    ensures forall i | 0 <= i < |s| && s[i] == '=' :: r[i] == '='
    ensures (forall i | 0 <= i < |s| :: s[i] != '-' && s[i] != '_') ==> FromUrlAlphabet(r) == s
  {
    seq(|s|, i requires 0 <= i < |s| => if s[i] == '+' then '-' else if s[i] == '/' then '_' else s[i])
  }

  /** `rtrim($s, $c)` for one character: every trailing c removed. */
  function RTrim(s: string, c: char): (r: string)
    ensures r <= s
    ensures r == [] || r[|r| - 1] != c
    ensures forall i | |r| <= i < |s| :: s[i] == c
    decreases |s|
  {
    if |s| > 0 && s[|s| - 1] == c then RTrim(s[..|s| - 1], c) else s
  }

  /** rtrim removes exactly a run of c that follows a string not ending in c. */
  lemma RTrimRun(x: string, p: string, c: char)
    requires x == [] || x[|x| - 1] != c
    requires forall i | 0 <= i < |p| :: p[i] == c
    ensures RTrim(x + p, c) == x
  {
    var s := x + p;
    var r := RTrim(s, c);
    assert |r| >= |x| by {
      if x != [] {
        assert s[|x| - 1] != c;
      }
    }
    assert forall j | |x| <= j < |s| :: s[j] == p[j - |x|] == c;
    assert r == s[..|r|];
  }

  lemma ToUrlAlphabetSplit(s: string, k: nat)
    requires k <= |s|
    ensures ToUrlAlphabet(s) == ToUrlAlphabet(s[..k]) + ToUrlAlphabet(s[k..])
  {
  }

  /** The URL-safe translation of a prefix of standard base64 characters. */
  lemma ToUrlAlphabetPrefix(s: string, k: nat)
    requires k <= |s|
    requires forall i | 0 <= i < k :: Base64.IsAlphabetChar(s[i])
    ensures forall i | 0 <= i < k :: IsBase64UrlChar(ToUrlAlphabet(s[..k])[i])
  {
    assert forall i | 0 <= i < k :: s[..k][i] == s[i];
  }

  /** The provider's `base64Urlencode` (Appendix A of RFC 7636): base64
      translated to the URL-safe alphabet with exactly its padding removed,
      so ceil(4n/3) characters, none of them '+', '/' or '='. */
  function Base64UrlEncode(b: seq<byte>): (r: string)
    ensures |r| == (4 * |b| + 2) / 3
    ensures r == ToUrlAlphabet(Base64.Encode(b)[..|r|])
    ensures forall i | |r| <= i < |Base64.Encode(b)| :: Base64.Encode(b)[i] == '='
    ensures forall i | 0 <= i < |r| :: IsBase64UrlChar(r[i])
  {
    var s := Base64.Encode(b);
    var k := (4 * |b| + 2) / 3;
    Base64.EncodeLayout(b);
    ToUrlAlphabetSplit(s, k);
    ToUrlAlphabetPrefix(s, k);
    RTrimRun(ToUrlAlphabet(s[..k]), ToUrlAlphabet(s[k..]), '=');
    RTrim(ToUrlAlphabet(s), '=')
  }

  /** base64url decoding: the padding is restored before decoding, and the
      standard-alphabet characters '+' and '/' are refused. */
  function Base64UrlDecode(s: string): Option<seq<byte>>
  {
    if '+' in s || '/' in s || |s| % 4 == 1 then None
    else Base64.Decode(FromUrlAlphabet(s) + Repad(|s|))
  }

  /** The padding base64url decoding puts back for an unpadded length. */
  function Repad(k: nat): string
  {
    if k % 4 == 2 then "==" else if k % 4 == 3 then "=" else ""
  }

  lemma DivThree(a: int, r: int)
    requires 0 <= r < 3
    ensures (3 * a + r) / 3 == a
  {
  }

  /** The lengths for n = 3q + r octets: 4q characters for the full groups
      and r + 1 more for a partial one; q groups, plus one for a partial one. */
  lemma GroupLengths(n: nat, q: nat, r: nat)
    requires n == 3 * q + r && r < 3
    ensures (4 * n + 2) / 3 == 4 * q + (if r == 0 then 0 else r + 1)
    ensures (n + 2) / 3 == q + (if r == 0 then 0 else 1)
  {
    if r == 0 {
      DivThree(4 * q, 2);
      DivThree(q, 2);
    } else if r == 1 {
      assert 4 * n + 2 == 3 * (4 * q + 2) && n + 2 == 3 * (q + 1);
      DivThree(4 * q + 2, 0);
      DivThree(q + 1, 0);
    } else {
      assert 4 * n + 2 == 3 * (4 * q + 3) + 1 && n + 2 == 3 * (q + 1) + 1;
      DivThree(4 * q + 3, 1);
      DivThree(q + 1, 1);
    }
  }

  lemma ModFour(q: nat, c: nat)
    requires c < 4
    ensures (4 * q + c) % 4 == c
  {
  }

  /** n octets: ceil(4n/3) unpadded characters, and the padding fills up to a
      multiple of four. */
  lemma PaddingCount(n: nat)
    ensures (4 * n + 2) / 3 % 4 != 1
    ensures 4 * ((n + 2) / 3) - (4 * n + 2) / 3 == |Repad((4 * n + 2) / 3)|
  {
    var q, r := n / 3, n % 3;
    var c := if r == 0 then 0 else r + 1;
    GroupLengths(n, q, r);
    ModFour(q, c);
  }

  /** Unpadded base64 is never one character past a multiple of four. */
  lemma UnpaddedLengthMod(n: nat, k: nat)
    requires k == (4 * n + 2) / 3
    ensures k % 4 != 1
  {
    PaddingCount(n);
  }

  /** The padding of a base64 encoding is what base64url decoding restores. */
  lemma PaddingIsRepad(b: seq<byte>)
    ensures (4 * |b| + 2) / 3 <= |Base64.Encode(b)|
    ensures Base64.Encode(b)[(4 * |b| + 2) / 3..] == Repad((4 * |b| + 2) / 3)
  {
    Base64.EncodeLayout(b);
    PaddingCount(|b|);
  }

  /** What base64url decoding does with text free of '+' and '/' whose length
      is not 1 modulo 4. */
  lemma Base64UrlDecodeUnfold(r: string, s: string)
    requires '+' !in r && '/' !in r && |r| % 4 != 1
    requires FromUrlAlphabet(r) + Repad(|r|) == s
    ensures Base64UrlDecode(r) == Base64.Decode(s)
  {
  }

  /** Decoding undoes base64url encoding. */
  lemma Base64UrlRoundTrip(b: seq<byte>)
    ensures Base64UrlDecode(Base64UrlEncode(b)) == Some(b)
  {
    var s, r := Base64.Encode(b), Base64UrlEncode(b);
    var k := |r|;
    UnpaddedLengthMod(|b|, k);
    assert FromUrlAlphabet(r) == s[..k] by {
      Base64.EncodeLayout(b);
      assert forall i | 0 <= i < k :: Base64.IsAlphabetChar(s[..k][i]);
    }
    assert Repad(k) == s[k..] by {
      PaddingIsRepad(b);
    }
    assert FromUrlAlphabet(r) + Repad(k) == s;
    Base64UrlDecodeUnfold(r, s);
    Base64.DecodeEncode(b);
  }

  /** A SHA-256 digest: 32 octets. */
  type Digest = d: seq<byte> | |d| == 32 witness seq(32, _ => 0)

  /** SHA-256 over the octets of a string, taken as given. */
  type Sha256 = string -> Digest

  /** base64url text is unreserved text. */
  lemma Base64UrlCharsAreUnreserved(s: string)
    requires forall i | 0 <= i < |s| :: IsBase64UrlChar(s[i])
    ensures forall i | 0 <= i < |s| :: IsUnreserved(s[i])
  {
  }

  /** The S256 code challenge of section 4.2 of RFC 7636,
      BASE64URL-ENCODE(SHA256(ASCII(code_verifier))). Every challenge is 43
      unreserved characters, so it meets the `code-challenge` syntax, and it
      decodes back to the verifier's digest, so the server's S256 comparison
      can succeed. */
  function PkceChallenge(sha256: Sha256, verifier: string): (c: string)
    ensures |c| == 43
    ensures IsUnreservedString43To128(c)
    ensures Base64UrlDecode(c) == Some(sha256(verifier))
  {
    var d := sha256(verifier);
    Base64UrlRoundTrip(d);
    Base64UrlCharsAreUnreserved(Base64UrlEncode(d));
    Base64UrlEncode(d)
  }

  /** The challenge binds the digest: two verifiers give the same challenge
      only when their digests agree. */
  lemma PkceChallengeInjective(sha256: Sha256, v1: string, v2: string)
    ensures PkceChallenge(sha256, v1) == PkceChallenge(sha256, v2) <==> sha256(v1) == sha256(v2)
  {
  }

  /** Octets whose base64 needs '+', '/' and padding: base64 gives "+/8=",
      base64url "-_8". */
  lemma Base64UrlEncodeTestVector()
    ensures Base64.Encode([251, 255]) == "+/8="
    ensures Base64UrlEncode([251, 255]) == "-_8"
  {
  }
}
