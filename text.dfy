/** The stock optional-value wrapper; `None` stands for PHP's `null`. */
module Wrappers {
  datatype Option<T> = None | Some(value: T)
}

/** String helpers the reporter uses: PHP's decimal and `dechex` renderings of
    integers, a literal substring test, `truncate` and `implode('', ...)`. */
module Text {

  /** The digit character for d, lower-case as `dechex` prints it. */
  function DigitChar(d: nat): char
    requires d < 16
  {
    if d < 10 then (48 + d) as char else (87 + d) as char
  }

  /** Inverse of DigitChar on the characters it produces. */
  function DigitValue(c: char): nat
  {
    if '0' <= c <= '9' then c as nat - 48
    else if 'a' <= c <= 'f' then c as nat - 87
    else 0
  }

  /** The digits of n in the given base, most significant first, no leading zero. */
  function Digits(n: nat, base: nat): (s: string)
    requires 2 <= base <= 16
    ensures 1 <= |s|
    decreases n
  {
    if n < base then [DigitChar(n)] else Digits(n / base, base) + [DigitChar(n % base)]
  }

  /** The number a digit string denotes in the given base. */
  function Value(s: string, base: nat): nat
  {
    if s == [] then 0 else Value(s[..|s| - 1], base) * base + DigitValue(s[|s| - 1])
  }

  /** Reading back what `dechex` wrote gives the number again. */
  lemma {:induction false} ValueOfHex(n: nat)
    ensures Value(Digits(n, 16), 16) == n
  {
    if n >= 16 {
      var q, m := n / 16, n % 16;
      var s := Digits(n, 16);
      assert s == Digits(q, 16) + [DigitChar(m)];
      assert s[..|s| - 1] == Digits(q, 16);
      ValueOfHex(q);
      assert DigitValue(DigitChar(m)) == m;
    }
  }

  /** PHP's string conversion of an integer. */
  function Decimal(n: int): string
  {
    if n < 0 then "-" + Digits(-n, 10) else Digits(n, 10)
  }

  /** PHP's `dechex` of a non-negative integer. */
  function Hex(n: nat): string
  {
    Digits(n, 16)
  }

  /** Distinct numbers have distinct `dechex` renderings. */
  lemma HexInjective(a: nat, b: nat)
    requires Hex(a) == Hex(b)
    ensures a == b
  {
    ValueOfHex(a);
    ValueOfHex(b);
  }

  /** `needle` occurs literally somewhere in `haystack`: what
      `preg_match('/' . preg_quote($needle, '/') . '/', $haystack)` tests. */
  predicate Contains(haystack: string, needle: string)
  {
    exists i :: 0 <= i <= |haystack| && needle <= haystack[i..]
  }

  /** A string occurs in any string built around it. */
  lemma ContainsMiddle(before: string, needle: string, after: string)
    ensures Contains(before + needle + after, needle)
  {
    assert (before + needle + after)[|before|..] == needle + after;
  }

  /** `Error_Reporter::truncate`: `$str` itself unless `isset($str[$len])`, else
      `substr($str, 0, $len) . '...'`.  A negative `$len` is an offset from the
      end of the string, for `isset` and for `substr` alike. */
  function Truncate(s: string, len: int): (r: string)
    ensures 0 <= len && |s| <= len ==> r == s
    ensures 0 <= len < |s| ==> |r| == len + 3 && r[..len] == s[..len] && r[len..] == "..."
    ensures len < 0 && -len <= |s| ==> r == s[..|s| + len] + "..."
    ensures len < 0 && |s| < -len ==> r == s
  {
    if 0 <= len then
      if len < |s| then s[..len] + "..." else s
    else
      if -len <= |s| then s[..|s| + len] + "..." else s
  }

  /** For a non-negative length, truncating a truncated string changes nothing. */
  lemma TruncateIdempotent(s: string, len: int)
    requires 0 <= len
    ensures Truncate(Truncate(s, len), len) == Truncate(s, len)
  {
    var t := Truncate(s, len);
    if len < |s| {
      assert t[..len] == s[..len];
      assert t[..len] + "..." == t;
    }
  }

  /** `implode('', $pieces)`. */
  function Concat(pieces: seq<string>): string
  {
    if pieces == [] then "" else Concat(pieces[..|pieces| - 1]) + pieces[|pieces| - 1]
  }
}
