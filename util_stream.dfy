// AutoLoggingStream (util.py): a stream whose writes go to a logging
// callback, one line per write.

module UtilStream {
  import opened Base

  const LowerHex: string := "0123456789abcdef"

  predicate IsAscii(s: string)
  {
    forall i :: 0 <= i < |s| ==> s[i] as int < 128
  }

  /** `width` lower-case hex digits of `n`, most significant first. */
  function Hex(n: nat, width: nat): (r: string)
    ensures |r| == width && IsAscii(r)
  {
    assert forall k :: 0 <= k < 16 ==> LowerHex[k] as int < 128;
    seq(width, i requires 0 <= i < width => LowerHex[(n / Pow16(width - 1 - i)) % 16])
  }

  function Pow16(k: nat): (p: nat)
    ensures p > 0
  {
    if k == 0 then 1 else 16 * Pow16(k - 1)
  }

  /** The 'backslashreplace' escape of one character outside ASCII. */
  function EscapeNonAscii(c: char): (r: string)
    ensures IsAscii(r) && |r| > 0
  {
    var n := c as int;
    if n < 128 then [c]
    else if n <= 0xFF then "\\x" + Hex(n, 2)
    else if n <= 0xFFFF then "\\u" + Hex(n, 4)
    else "\\U" + Hex(n, 8)
  }

  /** `data.encode('ascii', 'backslashreplace')`. */
  function BackslashReplace(s: string): string
  {
    if s == [] then [] else EscapeNonAscii(s[0]) + BackslashReplace(s[1..])
  }

  /** The encoding is all ASCII and keeps ASCII text as it is. */
  lemma {:induction false} BackslashReplaceAscii(s: string)
    ensures IsAscii(BackslashReplace(s))
    ensures IsAscii(s) ==> BackslashReplace(s) == s
    decreases |s|
  {
    if s != [] {
      BackslashReplaceAscii(s[1..]);
      var h := EscapeNonAscii(s[0]);
      var t := BackslashReplace(s[1..]);
      assert forall i :: 0 <= i < |h + t| ==> (h + t)[i] == if i < |h| then h[i] else t[i - |h|];
      if IsAscii(s) {
        assert IsAscii(s[1..]) by {
          forall i | 0 <= i < |s[1..]| ensures s[1..][i] as int < 128 {
            assert s[1..][i] == s[i + 1];
          }
        }
        assert s == [s[0]] + s[1..];
      }
    }
  }

  /** Encoding twice is encoding once. */
  lemma BackslashReplaceIdempotent(s: string)
    ensures BackslashReplace(BackslashReplace(s)) == BackslashReplace(s)
  {
    BackslashReplaceAscii(s);
    BackslashReplaceAscii(BackslashReplace(s));
  }

  lemma {:induction false} BackslashReplaceConcat(a: string, b: string)
    ensures BackslashReplace(a + b) == BackslashReplace(a) + BackslashReplace(b)
    decreases |a|
  {
    if a == [] {
      assert a + b == b;
    } else {
      assert (a + b)[1..] == a[1..] + b;
      BackslashReplaceConcat(a[1..], b);
    }
  }

  /** Drops one final newline. */
  function StripNewline(d: string): string
  {
    if |d| > 0 && d[|d| - 1] == '\n' then d[..|d| - 1] else d
  }

  /** A unicode write is encoded to ASCII with backslashreplace; a byte string is logged as it is. */
  function Encode(data: string, isUnicode: bool): string
  {
    if isUnicode then BackslashReplace(data) else data
  }

  /** What one write hands to the callback, without the prefix. */
  function LoggedData(data: string, isUnicode: bool): string
  {
    StripNewline(Encode(data, isUnicode))
  }

  lemma StripNewlineFacts(d: string, nl: string)
    requires nl == "\n"
    ensures StripNewline(d + nl) == d
    ensures |d| == 0 || d[|d| - 1] != '\n' ==> StripNewline(d) == d
  {
    assert (d + nl)[..|d|] == d;
  }

  lemma StripNewlineKeeps(d: string)
    requires |d| == 0 || d[|d| - 1] != '\n'
    ensures StripNewline(d) == d
  {
  }

  /** An escape ends in the character itself or in a hex digit. */
  lemma EscapeNonAsciiLast(c: char)
    requires c != '\n'
    ensures EscapeNonAscii(c)[|EscapeNonAscii(c)| - 1] != '\n'
  {
    var n := c as int;
    var r := EscapeNonAscii(c);
    if n >= 128 {
      var w := if n <= 0xFF then 2 else if n <= 0xFFFF then 4 else 8;
      var h := Hex(n, w);
      assert r[|r| - 1] == h[w - 1];
      assert h[w - 1] == LowerHex[(n / Pow16(0)) % 16];
      assert forall k :: 0 <= k < 16 ==> LowerHex[k] != '\n';
    }
  }

  lemma {:induction false} BackslashReplaceLast(s: string)
    requires |s| > 0 && s[|s| - 1] != '\n'
    ensures |BackslashReplace(s)| > 0 && BackslashReplace(s)[|BackslashReplace(s)| - 1] != '\n'
    decreases |s|
  {
    if |s| > 1 {
      BackslashReplaceLast(s[1..]);
    } else {
      EscapeNonAsciiLast(s[0]);
    }
  }

  lemma BackslashReplaceNewline(s: string, nl: string)
    requires nl == "\n"
    ensures BackslashReplace(s + nl) == BackslashReplace(s) + nl
  {
    assert nl[1..] == [] && nl[0] == '\n';
    BackslashReplaceConcat(s, nl);
  }

  /** A text that does not end in a newline is logged whole, once encoded. */
  lemma LoggedDataWhole(s: string, isUnicode: bool)
    requires |s| == 0 || s[|s| - 1] != '\n'
    ensures LoggedData(s, isUnicode) == Encode(s, isUnicode)
  {
    if !isUnicode {
      StripNewlineKeeps(s);
    } else if s == [] {
      assert BackslashReplace(s) == [];
    } else {
      BackslashReplaceLast(s);
      StripNewlineKeeps(BackslashReplace(s));
    }
  }

  /** One final newline is dropped before logging. */
  lemma LoggedDataDropsNewline(s: string, nl: string, isUnicode: bool)
    requires nl == "\n"
    ensures LoggedData(s + nl, isUnicode) == Encode(s, isUnicode)
  {
    if isUnicode {
      BackslashReplaceNewline(s, nl);
      StripNewlineFacts(BackslashReplace(s), nl);
    } else {
      StripNewlineFacts(s, nl);
    }
  }

  /** A write of a text and of the same text with one more newline log the same line. */
  lemma LoggedDataNewline(s: string, nl: string, isUnicode: bool)
    requires nl == "\n"
    requires |s| == 0 || s[|s| - 1] != '\n'
    ensures LoggedData(s + nl, isUnicode) == LoggedData(s, isUnicode)
  {
    LoggedDataWhole(s, isUnicode);
    LoggedDataDropsNewline(s, nl, isUnicode);
  }

  class AutoLoggingStream {
    const prefix: string
    /** Every line handed to the logging callback so far, oldest first. */
    var logged: seq<string>

    constructor(prefix: string)
      ensures this.prefix == prefix && logged == []
    {
      this.prefix := prefix;
      logged := [];
    }

    /**
     * write: logs the prefix and the data when anything is left after the
     * newline goes; `isUnicode` says whether the data is a unicode object
     * rather than a byte string.
     */
    method Write(data: string, isUnicode: bool)
      modifies this
      ensures LoggedData(data, isUnicode) != [] ==> logged == old(logged) + [prefix + LoggedData(data, isUnicode)]
      ensures LoggedData(data, isUnicode) == [] ==> logged == old(logged)
    {
      var d := data;
      if isUnicode {
        d := BackslashReplace(d);
      }
      if |d| > 0 && d[|d| - 1] == '\n' {
        d := d[..|d| - 1];
      }
      if d != [] {
        logged := logged + [prefix + d];
      }
    }
  }
}
