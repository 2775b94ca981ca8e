/**
 * The adapter's error values.  `CacheException` turns a driver message
 * into a single line without double quotes before it is raised; both
 * connection and statement raise it with the driver's last error message
 * and the integer cast of its SQLSTATE as the code.
 */
module Exceptions {
  import opened Php

  datatype Error =
    | CacheException(message: string, code: int)
    | InvalidArgument(message: string)
    | PdoException(native: NativeError)
    | TypeError(message: string)

  datatype Result<T> = Ok(value: T) | Err(error: Error)

  /** What the native layer reports after a failed call: `odbc_error()` and `odbc_errormsg()`. */
  datatype NativeError = NativeError(state: string, message: string)

  /** `str_replace($c, $r, $s)` for a one-character search string. */
  function Replace(s: string, c: char, r: string): (t: string)
    ensures c !in r ==> c !in t
  {
    if s == [] then [] else (if s[0] == c then r else [s[0]]) + Replace(s[1..], c, r)
  }

  /** Each replaced character contributes |r| characters instead of one. */
  lemma {:induction false} ReplaceLength(s: string, c: char, r: string)
    ensures |Replace(s, c, r)| == |s| - multiset(s)[c] + |r| * multiset(s)[c]
  {
    if s != [] {
      var n := multiset(s[1..])[c];
      ReplaceLength(s[1..], c, r);
      assert s == [s[0]] + s[1..];
      assert multiset(s) == multiset{s[0]} + multiset(s[1..]);
      if s[0] == c {
        assert multiset(s)[c] == n + 1;
        assert |Replace(s, c, r)| == |r| + |Replace(s[1..], c, r)|;
        assert |r| * (n + 1) == |r| * n + |r|;
      } else {
        assert multiset(s)[c] == n;
        assert |Replace(s, c, r)| == 1 + |Replace(s[1..], c, r)|;
      }
    }
  }

  /** Characters other than c that r does not contain are neither added nor lost. */
  lemma {:induction false} ReplaceKeeps(s: string, c: char, r: string, d: char)
    requires d != c && d !in r
    ensures multiset(Replace(s, c, r))[d] == multiset(s)[d]
  {
    if s != [] {
      ReplaceKeeps(s[1..], c, r, d);
      assert s == [s[0]] + s[1..];
      var head := if s[0] == c then r else [s[0]];
      assert multiset(Replace(s, c, r)) == multiset(head) + multiset(Replace(s[1..], c, r));
    }
  }

  /**
   * The message CacheException stores: every `"` deleted, then every
   * newline replaced by " - ".  It is a single line without double quotes.
   */
  function Normalize(message: string): (r: string)
    ensures '"' !in r && '\n' !in r
  {
    var once := Replace(message, '"', "");
    ReplaceKeeps(once, '\n', " - ", '"');
    var r := Replace(once, '\n', " - ");
    assert multiset(r)['"'] == 0;
    r
  }

  /** The first pass removes the quotes and keeps the newlines. */
  lemma QuotePass(message: string)
    ensures |Replace(message, '"', "")| == |message| - multiset(message)['"']
    ensures multiset(Replace(message, '"', ""))['\n'] == multiset(message)['\n']
  {
    ReplaceLength(message, '"', "");
    assert |""| * multiset(message)['"'] == 0;
    ReplaceKeeps(message, '"', "", '\n');
  }

  /** The second pass adds two characters per newline. */
  lemma NewlinePass(s: string)
    ensures |Replace(s, '\n', " - ")| == |s| + 2 * multiset(s)['\n']
  {
    ReplaceLength(s, '\n', " - ");
    assert |" - "| == 3;
  }

  /** Each `"` removes one character and each newline adds two. */
  lemma NormalizeLength(message: string)
    ensures |Normalize(message)| == |message| - multiset(message)['"'] + 2 * multiset(message)['\n']
  {
    QuotePass(message);
    NewlinePass(Replace(message, '"', ""));
  }

  /** What one character of the input becomes in the normalised message. */
  function Image(c: char): string {
    if c == '"' then "" else if c == '\n' then " - " else [c]
  }

  /** An independent, one-pass definition of the normalisation. */
  function PerChar(s: string): string {
    if s == [] then [] else Image(s[0]) + PerChar(s[1..])
  }

  lemma {:induction false} ReplaceAppend(a: string, b: string, c: char, r: string)
    ensures Replace(a + b, c, r) == Replace(a, c, r) + Replace(b, c, r)
  {
    if a != [] {
      var head := if a[0] == c then r else [a[0]];
      assert (a + b)[0] == a[0] && (a + b)[1..] == a[1..] + b;
      ReplaceAppend(a[1..], b, c, r);
      assert Replace(a + b, c, r) == head + (Replace(a[1..], c, r) + Replace(b, c, r));
      assert Replace(a, c, r) == head + Replace(a[1..], c, r);
    } else {
      assert a + b == b;
    }
  }

  lemma {:induction false} ReplaceNoOccurrence(s: string, c: char, r: string)
    requires c !in s
    ensures Replace(s, c, r) == s
  {
    if s != [] {
      ReplaceNoOccurrence(s[1..], c, r);
      assert [s[0]] + s[1..] == s;
    }
  }

  /** The two `str_replace` passes act character by character. */
  lemma {:induction false} NormalizeIsPerChar(s: string)
    ensures Normalize(s) == PerChar(s)
  {
    if s != [] {
      NormalizeIsPerChar(s[1..]);
      var head := Replace([s[0]], '"', "");
      assert s == [s[0]] + s[1..];
      ReplaceAppend([s[0]], s[1..], '"', "");
      ReplaceAppend(head, Replace(s[1..], '"', ""), '\n', " - ");
      assert Replace([s[0]], '"', "") == (if s[0] == '"' then "" else [s[0]]) + Replace([], '"', "");
      if s[0] != '"' {
        assert Replace(head, '\n', " - ") == (if s[0] == '\n' then " - " else [s[0]]) + Replace([], '\n', " - ");
      }
    }
  }

  /** Messages without quotes or newlines are stored as they are. */
  lemma NormalizeClean(s: string)
    requires '"' !in s && '\n' !in s
    ensures Normalize(s) == s
  {
    ReplaceNoOccurrence(s, '"', "");
    ReplaceNoOccurrence(s, '\n', " - ");
  }

  /** Normalising a normalised message changes nothing. */
  lemma NormalizeIdempotent(s: string)
    ensures Normalize(Normalize(s)) == Normalize(s)
  {
    NormalizeClean(Normalize(s));
  }

  /** `new CacheException($message, $code)`. */
  function NewCacheException(message: string, code: int): (e: Error)
    ensures e.CacheException? && e.code == code
    ensures '"' !in e.message && '\n' !in e.message
    ensures |e.message| == |message| - multiset(message)['"'] + 2 * multiset(message)['\n']
  {
    NormalizeLength(message);
    CacheException(Normalize(message), code)
  }

  /** The exception stores the normalised message and the code it was given. */
  lemma NewCacheExceptionNormalizes(message: string, code: int)
    ensures NewCacheException(message, code) == CacheException(Normalize(message), code)
  {
  }

  /**
   * `throwException()`: a CacheException made from the driver's last
   * error message, with the `(int)` cast of its SQLSTATE as the code.
   */
  function FromNative(e: NativeError): (r: Error)
    ensures r.CacheException? && r.code == IntCast(e.state)
    ensures r.message == PerChar(e.message)
  {
    NormalizeIsPerChar(e.message);
    NewCacheException(e.message, IntCast(e.state))
  }
}
