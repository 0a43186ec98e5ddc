// URL helpers of util.py: quote_unicode_url, is_url and the magnet-link
// checks is_magnet_uri / info_hash_from_magnet.

module UtilUrl {
  import opened Base

  predicate IsAscii(s: string)
  {
    forall i :: 0 <= i < |s| ==> s[i] as int < 128
  }

  // ------------------------------------------------------------------ UTF-8

  /** The UTF-8 encoding of one Unicode scalar value. */
  function Utf8Char(c: char): seq<Byte>
  {
    var n := c as int;
    if n < 0x80 then [n]
    else if n < 0x800 then
      assert n / 0x40 < 0x20;
      [0xC0 + n / 0x40, 0x80 + n % 0x40]
    else if n < 0x1_0000 then
      assert n / 0x1000 < 0x10;
      [0xE0 + n / 0x1000, 0x80 + (n / 0x40) % 0x40, 0x80 + n % 0x40]
    else
      assert n <= 0x10_FFFF;
      assert n / 0x4_0000 <= 4;
      [0xF0 + n / 0x4_0000, 0x80 + (n / 0x1000) % 0x40, 0x80 + (n / 0x40) % 0x40, 0x80 + n % 0x40]
  }

  /** `text.encode('utf8')`. */
  function Utf8Encode(s: string): seq<Byte>
  {
    if s == [] then [] else Utf8Char(s[0]) + Utf8Encode(s[1..])
  }

  /** A character encodes to one byte below 128 exactly when it is ASCII; otherwise every byte is above 127. */
  lemma Utf8CharBytes(c: char)
    ensures c as int < 128 ==> Utf8Char(c) == [c as int]
    ensures c as int >= 128 ==> forall j :: 0 <= j < |Utf8Char(c)| ==> Utf8Char(c)[j] > 127
  {
  }

  /** Decodes the bytes of one UTF-8 sequence back to its code point. */
  function Utf8Value(b: seq<Byte>): int
  {
    if |b| == 1 then b[0]
    else if |b| == 2 then (b[0] as int - 0xC0) * 0x40 + (b[1] as int - 0x80)
    else if |b| == 3 then
      (b[0] as int - 0xE0) * 0x1000 + (b[1] as int - 0x80) * 0x40 + (b[2] as int - 0x80)
    else if |b| == 4 then
      (b[0] as int - 0xF0) * 0x4_0000 + (b[1] as int - 0x80) * 0x1000 +
      (b[2] as int - 0x80) * 0x40 + (b[3] as int - 0x80)
    else 0
  }

  /** The encoding of a character decodes back to it. */
  lemma Utf8CharRoundTrip(c: char)
    ensures 1 <= |Utf8Char(c)| <= 4 && Utf8Value(Utf8Char(c)) == c as int
  {
    var n := c as int;
    if n >= 0x1_0000 {
      var q := n / 0x40;
      assert n == q * 0x40 + n % 0x40;
      assert q == (q / 0x40) * 0x40 + q % 0x40;
      assert q / 0x40 == n / 0x1000;
      var p := n / 0x1000;
      assert p == (p / 0x40) * 0x40 + p % 0x40;
      assert p / 0x40 == n / 0x4_0000;
    } else if n >= 0x800 {
      var q := n / 0x40;
      assert n == q * 0x40 + n % 0x40;
      assert q == (q / 0x40) * 0x40 + q % 0x40;
      assert q / 0x40 == n / 0x1000;
    }
  }

  /** Every byte of an ASCII text is below 128, and a text with a non-ASCII character has a byte above 127. */
  lemma {:induction false} Utf8EncodeAscii(s: string)
    ensures IsAscii(s) <==> (forall j :: 0 <= j < |Utf8Encode(s)| ==> Utf8Encode(s)[j] < 128)
    decreases |s|
  {
    if s != [] {
      Utf8CharBytes(s[0]);
      Utf8EncodeAscii(s[1..]);
      var e := Utf8Encode(s);
      var h := Utf8Char(s[0]);
      assert e == h + Utf8Encode(s[1..]);
      if IsAscii(s) {
        assert IsAscii(s[1..]) by {
          forall i | 0 <= i < |s[1..]| ensures s[1..][i] as int < 128 {
            assert s[1..][i] == s[i + 1];
          }
        }
      } else if s[0] as int < 128 {
        assert !IsAscii(s[1..]) by {
          var i :| 0 <= i < |s| && s[i] as int >= 128;
          assert s[1..][i - 1] == s[i];
        }
        var j :| 0 <= j < |Utf8Encode(s[1..])| && Utf8Encode(s[1..])[j] >= 128;
        assert e[j + |h|] == Utf8Encode(s[1..])[j];
      } else {
        assert e[0] == h[0];
      }
    }
  }

  // ----------------------------------------------------------- quote_unicode_url

  const HexDigits: string := "0123456789ABCDEF"

  /** `urllib.quote` of one byte above 127: '%' and two upper-case hex digits. */
  function PercentByte(b: Byte): string
  {
    ['%', HexDigits[b / 16], HexDigits[b % 16]]
  }

  function QuoteByte(b: Byte): string
  {
    if b > 127 then PercentByte(b) else [b as char]
  }

  /** The quoted bytes, in order. */
  function QuoteBytes(bs: seq<Byte>): string
  {
    if bs == [] then [] else QuoteBytes(bs[..|bs| - 1]) + QuoteByte(bs[|bs| - 1])
  }

  function QuoteUnicodeUrlSpec(url: string): string
  {
    QuoteBytes(Utf8Encode(url))
  }

  /** quote_unicode_url: the UTF-8 bytes of the URL, those above 127 percent-quoted. */
  method QuoteUnicodeUrl(url: string) returns (r: string)
    ensures r == QuoteUnicodeUrlSpec(url)
    ensures IsAscii(r) && r == QuoteRef(url)
  {
    var bytes := Utf8Encode(url);
    r := [];
    var i := 0;
    while i < |bytes|
      invariant 0 <= i <= |bytes|
      invariant r == QuoteBytes(bytes[..i])
    {
      r := r + QuoteByte(bytes[i]);
      i := i + 1;
      assert bytes[..i][..i - 1] == bytes[..i - 1];
    }
    assert bytes[..i] == bytes;
    QuoteBytesAscii(bytes);
    QuoteMatchesReference(url);
  }

  lemma {:induction false} QuoteBytesConcat(a: seq<Byte>, b: seq<Byte>)
    ensures QuoteBytes(a + b) == QuoteBytes(a) + QuoteBytes(b)
    decreases |b|
  {
    if b == [] {
      assert a + b == a;
    } else {
      var n := |b| - 1;
      assert (a + b)[..|a + b| - 1] == a + b[..n];
      QuoteBytesConcat(a, b[..n]);
    }
  }

  /** The quoted text is all ASCII. */
  lemma {:induction false} QuoteBytesAscii(bs: seq<Byte>)
    ensures IsAscii(QuoteBytes(bs))
    decreases |bs|
  {
    if bs != [] {
      QuoteBytesAscii(bs[..|bs| - 1]);
      var a := QuoteBytes(bs[..|bs| - 1]);
      var q := QuoteByte(bs[|bs| - 1]);
      assert IsAscii(q);
      assert forall i :: 0 <= i < |a + q| ==> (a + q)[i] == if i < |a| then a[i] else q[i - |a|];
    }
  }

  /** Reference for quote_unicode_url, character by character. */
  function QuoteChar(c: char): string
  {
    if c as int < 128 then [c] else QuoteBytes(Utf8Char(c))
  }

  function QuoteRef(url: string): string
  {
    if url == [] then [] else QuoteChar(url[0]) + QuoteRef(url[1..])
  }

  lemma {:induction false} QuoteMatchesReference(url: string)
    ensures QuoteUnicodeUrlSpec(url) == QuoteRef(url)
    decreases |url|
  {
    if url != [] {
      QuoteBytesConcat(Utf8Char(url[0]), Utf8Encode(url[1..]));
      QuoteMatchesReference(url[1..]);
      Utf8CharBytes(url[0]);
      if url[0] as int < 128 {
        assert QuoteBytes([url[0] as int]) == QuoteBytes([]) + QuoteByte(url[0] as int);
      }
    }
  }

  /** An ASCII URL is returned unchanged. */
  lemma {:induction false} QuoteAsciiUnchanged(url: string)
    requires IsAscii(url)
    ensures QuoteUnicodeUrlSpec(url) == url
    decreases |url|
  {
    QuoteMatchesReference(url);
    QuoteRefAscii(url);
  }

  lemma {:induction false} QuoteRefAscii(url: string)
    requires IsAscii(url)
    ensures QuoteRef(url) == url
    decreases |url|
  {
    if url != [] {
      assert IsAscii(url[1..]) by {
        forall i | 0 <= i < |url[1..]| ensures url[1..][i] as int < 128 {
          assert url[1..][i] == url[i + 1];
        }
      }
      QuoteRefAscii(url[1..]);
      assert url == [url[0]] + url[1..];
    }
  }

  /** Quoting twice is quoting once. */
  lemma QuoteIdempotent(url: string)
    ensures QuoteUnicodeUrlSpec(QuoteUnicodeUrlSpec(url)) == QuoteUnicodeUrlSpec(url)
  {
    QuoteBytesAscii(Utf8Encode(url));
    QuoteAsciiUnchanged(QuoteUnicodeUrlSpec(url));
  }

  /** A non-ASCII character becomes the percent-quotes of its UTF-8 bytes: U+00E7 gives "%C3%A7". */
  lemma QuoteCedilla(url: string)
    requires url == "\U{E7}"
    ensures QuoteUnicodeUrlSpec(url) == "%C3%A7"
  {
    var c := url[0];
    assert c as int == 0xE7;
    var b: seq<Byte> := [0xC3, 0xA7];
    assert Utf8Char(c) == b;
    assert url[1..] == [];
    assert Utf8Encode(url) == b + Utf8Encode([]) == b;
    assert b[..1] == [0xC3] && b[..1][..0] == [];
    assert QuoteByte(0xC3) == "%C3" by {
      assert HexDigits[12] == 'C' && HexDigits[3] == '3';
    }
    assert QuoteByte(0xA7) == "%A7" by {
      assert HexDigits[10] == 'A' && HexDigits[7] == '7';
    }
    assert QuoteBytes(b[..1]) == QuoteBytes([]) + QuoteByte(0xC3);
    assert QuoteBytes(b) == QuoteBytes(b[..1]) + QuoteByte(0xA7) == "%C3" + "%A7";
  }

  // ------------------------------------------------------------------- is_url

  /**
   * The anchored pattern `^(http|https)://[^/ ]+/[^ ]*$` on the rest after
   * the scheme, stated directly: a non-empty host with no '/' and no space,
   * a '/', then a path with no space.
   */
  predicate HostPath(rest: string)
  {
    exists i :: 0 < i < |rest| && rest[i] == '/' && Without(rest[..i], '/') &&
      Without(rest[..i], ' ') && Without(rest[i + 1..], ' ')
  }

  predicate NoSpaceFrom(u: string, k: nat)
    decreases |u| - k
  {
    k >= |u| || (u[k] != ' ' && NoSpaceFrom(u, k + 1))
  }

  /** The regular-expression engine's scan: the host goes on up to the first '/'. */
  predicate HostTailFrom(u: string, k: nat)
    decreases |u| - k
  {
    k < |u| && (if u[k] == '/' then NoSpaceFrom(u, k + 1) else u[k] != ' ' && HostTailFrom(u, k + 1))
  }

  predicate HostPathFrom(u: string, k: nat)
  {
    k < |u| && u[k] != '/' && u[k] != ' ' && HostTailFrom(u, k + 1)
  }

  /** HTTP_HTTPS_MATCH_RE.match: "http" is tried before "https". */
  predicate HttpMatch(u: string)
  {
    (StartsWith(u, "http://") && HostPathFrom(u, 7)) ||
    (StartsWith(u, "https://") && HostPathFrom(u, 8))
  }

  lemma {:induction false} NoSpaceFromWithout(u: string, k: nat)
    requires k <= |u|
    ensures NoSpaceFrom(u, k) <==> Without(u[k..], ' ')
    decreases |u| - k
  {
    if k < |u| {
      NoSpaceFromWithout(u, k + 1);
      assert u[k..] == [u[k]] + u[k + 1..];
    }
  }

  lemma {:induction false} HostTailFromSplit(u: string, k: nat, s: nat)
    requires s < k <= |u| && Without(u[s..k], '/') && Without(u[s..k], ' ')
    ensures HostTailFrom(u, k) <==>
      exists i :: k <= i < |u| && u[i] == '/' && Without(u[s..i], '/') &&
        Without(u[s..i], ' ') && Without(u[i + 1..], ' ')
    decreases |u| - k
  {
    if k < |u| {
      if u[k] == '/' {
        NoSpaceFromWithout(u, k + 1);
        forall i | k <= i < |u| && Without(u[s..i], '/')
          ensures i == k
        {
          SlashInside(u, s, k, i);
        }
      } else {
        if u[k] != ' ' {
          assert u[s..k + 1] == u[s..k] + [u[k]];
          HostTailFromSplit(u, k + 1, s);
        }
        forall i | k <= i < |u| && u[i] == '/' && Without(u[s..i], '/') && Without(u[s..i], ' ')
          ensures i >= k + 1 && u[k] != ' '
        {
          assert i != k;
          assert u[s..i][k - s] == u[k];
        }
      }
    }
  }

  lemma SlashInside(u: string, s: nat, k: nat, i: nat)
    ensures s <= k < i <= |u| && u[k] == '/' ==> !Without(u[s..i], '/')
  {
    if s <= k < i <= |u| && u[k] == '/' {
      assert u[s..i][k - s] == '/';
    }
  }

  lemma WithoutPrefixHead(r: string, i: nat, c: char)
    requires 0 < i <= |r| && Without(r[..i], c)
    ensures r[0] != c
  {
    assert r[..i][0] == r[0];
  }

  /** A host and path start with a character that is neither '/' nor a space. */
  lemma HostPathHead(rest: string)
    ensures HostPath(rest) ==> |rest| > 0 && rest[0] != '/' && rest[0] != ' '
  {
    if HostPath(rest) {
      var i :| 0 < i < |rest| && rest[i] == '/' && Without(rest[..i], '/') &&
        Without(rest[..i], ' ') && Without(rest[i + 1..], ' ');
      WithoutPrefixHead(rest, i, '/');
      WithoutPrefixHead(rest, i, ' ');
    }
  }

  /** The engine's scan agrees with the direct reading of the pattern. */
  lemma HostPathFromMatches(u: string, k: nat)
    requires k <= |u|
    ensures HostPathFrom(u, k) <==> HostPath(u[k..])
  {
    var rest := u[k..];
    HostPathHead(rest);
    if k < |u| && u[k] != '/' && u[k] != ' ' {
      assert u[k..k + 1] == [u[k]];
      HostTailFromSplit(u, k + 1, k);
      if HostTailFrom(u, k + 1) {
        var i :| k + 1 <= i < |u| && u[i] == '/' && Without(u[k..i], '/') &&
          Without(u[k..i], ' ') && Without(u[i + 1..], ' ');
        assert rest[..i - k] == u[k..i] && rest[i - k + 1..] == u[i + 1..];
      }
      if HostPath(rest) {
        var i :| 0 < i < |rest| && rest[i] == '/' && Without(rest[..i], '/') &&
          Without(rest[..i], ' ') && Without(rest[i + 1..], ' ');
        assert rest[..i] == u[k..k + i] && rest[i + 1..] == u[k + i + 1..];
        assert k + 1 <= k + i < |u| && u[k + i] == '/';
      }
    }
  }

  /** is_url: a non-empty, all-ASCII http or https URL with a host and a path. */
  method IsUrl(url: Option<string>) returns (r: bool)
    ensures r <==> url.Some? && url.value != [] && IsAscii(url.value) && HttpMatch(url.value)
  {
    if url.None? || url.value == [] {
      return false;
    }
    var bytes := Utf8Encode(url.value);
    Utf8EncodeAscii(url.value);
    var i := 0;
    while i < |bytes|
      invariant 0 <= i <= |bytes|
      invariant forall j :: 0 <= j < i ==> bytes[j] < 128
    {
      if bytes[i] > 127 {
        assert Utf8Encode(url.value)[i] >= 128;
        assert !IsAscii(url.value);
        return false;
      }
      i := i + 1;
    }
    r := HttpMatch(url.value);
  }

  /** "http://foo.bar.com/" and "https://foo.bar.com/" are URLs. */
  lemma IsUrlAcceptsHttp(a: string)
    requires a == "http://foo.bar.com/"
    ensures HttpMatch(a)
  {
    assert StartsWith(a, "http://");
    HostPathFromMatches(a, 7);
    var rest := a[7..];
    assert rest == "foo.bar.com/";
    assert rest[11] == '/' && rest[..11] == "foo.bar.com" && rest[12..] == [];
  }

  lemma IsUrlAcceptsHttps(b: string)
    requires b == "https://foo.bar.com/"
    ensures HttpMatch(b)
  {
    assert StartsWith(b, "https://");
    HostPathFromMatches(b, 8);
    var rest := b[8..];
    assert rest == "foo.bar.com/";
    assert rest[11] == '/' && rest[..11] == "foo.bar.com" && rest[12..] == [];
  }

  /** "http://foo.bar.com" (no path) and "http:///foo.bar.com/" (no host) are not. */
  lemma IsUrlRefuses(c: string, d: string)
    requires c == "http://foo.bar.com" && d == "http:///foo.bar.com/"
    ensures !HttpMatch(c) && !HttpMatch(d)
  {
    HostPathFromMatches(c, 7);
    assert c[7..] == "foo.bar.com";
    assert Without(c[7..], '/');
    assert c[4] != 's' && d[4] != 's' && d[7] == '/';
  }

  // ------------------------------------------------------------------ magnet

  predicate IsAlnum(c: char)
  {
    ('a' <= c <= 'z') || ('A' <= c <= 'Z') || ('0' <= c <= '9')
  }

  /** Position `p` is preceded by "btih:" and starts a run of letters and digits. */
  predicate HashStart(uri: string, p: int)
  {
    5 <= p < |uri| && uri[p - 5..p] == "btih:" && IsAlnum(uri[p])
  }

  /** The length of the run of letters and digits from `p`. */
  function AlnumRun(uri: string, p: nat): (n: nat)
    requires p <= |uri|
    ensures p + n <= |uri|
    ensures forall j :: p <= j < p + n ==> IsAlnum(uri[j])
    ensures p + n == |uri| || !IsAlnum(uri[p + n])
    decreases |uri| - p
  {
    if p < |uri| && IsAlnum(uri[p]) then 1 + AlnumRun(uri, p + 1) else 0
  }

  /** `q` is the first position from `p` on that starts an info hash. */
  predicate LeftmostHashStart(uri: string, q: int, p: int)
  {
    p <= q && HashStart(uri, q) && forall q' :: p <= q' < q ==> !HashStart(uri, q')
  }

  /** The first position from `p` on where an info hash starts, or a position past the end. */
  function FirstHashFrom(uri: string, p: nat): (q: nat)
    ensures p <= q && (q < |uri| ==> HashStart(uri, q))
    ensures forall q' :: p <= q' < q ==> !HashStart(uri, q')
    ensures q >= |uri| ==> forall q' :: p <= q' ==> !HashStart(uri, q')
    decreases |uri| - p
  {
    if p >= |uri| || HashStart(uri, p) then p else FirstHashFrom(uri, p + 1)
  }

  /** The regular-expression search from position `p` on. */
  function InfoHashFrom(uri: string, p: nat): (r: Option<string>)
    requires p >= 5
    ensures r.None? <==> forall q :: p <= q && HashStart(uri, q) ==> false
    ensures r.Some? ==> exists q :: LeftmostHashStart(uri, q, p) && r.value == uri[q..q + AlnumRun(uri, q)]
  {
    var q := FirstHashFrom(uri, p);
    if q < |uri| then
      assert LeftmostHashStart(uri, q, p);
      Some(uri[q..q + AlnumRun(uri, q)])
    else None
  }

  /**
   * info_hash_from_magnet: the leftmost maximal run of ASCII letters and
   * digits preceded by "btih:", or None. (No position before 5 can follow "btih:".)
   */
  function InfoHashFromMagnet(uri: string): (r: Option<string>)
    ensures r.None? <==> forall q :: HashStart(uri, q) ==> false
    ensures r.Some? ==> exists q :: LeftmostHashStart(uri, q, 5) && r.value == uri[q..q + AlnumRun(uri, q)]
  {
    InfoHashFrom(uri, 5)
  }

  /** A found info hash is a non-empty run of letters and digits that cannot be extended. */
  lemma InfoHashIsMaximalRun(uri: string, q: nat)
    requires HashStart(uri, q)
    ensures var h := uri[q..q + AlnumRun(uri, q)];
      |h| > 0 && (forall j :: 0 <= j < |h| ==> IsAlnum(h[j])) &&
      (q + |h| == |uri| || !IsAlnum(uri[q + |h|]))
  {
    var h := uri[q..q + AlnumRun(uri, q)];
    assert forall j :: 0 <= j < |h| ==> h[j] == uri[q + j];
  }

  /** is_magnet_uri: a "magnet:" link that carries an info hash. */
  function IsMagnetUri(uri: string): (r: bool)
    ensures r <==> StartsWith(uri, "magnet:") && exists q :: HashStart(uri, q)
  {
    StartsWith(uri, "magnet:") && InfoHashFromMagnet(uri).Some?
  }
}
