/**
 * Asset symbols. The client keys every dictionary by the lower-cased symbol
 * (`asset.toLowerCase()`), and names the diff stream of an asset
 * `<symbol>@depth`.
 */
module Symbols {

  /** ASCII lower-casing of one character. */
  function LowerChar(c: char): char {
    if 'A' <= c <= 'Z' then (c as int - 'A' as int + 'a' as int) as char else c
  }

  /** `toLowerCase()` over ASCII letters. */
  function Lower(s: string): (r: string)
    ensures |r| == |s|
  {
    seq(|s|, i requires 0 <= i < |s| => LowerChar(s[i]))
  }

  /** A symbol already in the lower-cased form the dictionaries are keyed by. */
  predicate IsKey(s: string) {
    Lower(s) == s
  }

  /** Two characters that are the same letter, possibly in different case. */
  predicate SameIgnoringCase(c: char, d: char) {
    || c == d
    || ('A' <= c <= 'Z' && d as int == c as int + 32)
    || ('A' <= d <= 'Z' && c as int == d as int + 32)
  }

  /** Two symbols that differ at most in the case of their letters. */
  predicate EqualIgnoringCase(s: string, t: string) {
    |s| == |t| && forall i :: 0 <= i < |s| ==> SameIgnoringCase(s[i], t[i])
  }

  /** The name of an asset's diff stream: `[asset.toLowerCase(), 'depth'].join('@')`. */
  function Stream(asset: string): string {
    Lower(asset) + "@depth"
  }

  /** Symbols that differ only in case share a key, and only they do. */
  lemma SameKeyIffEqualIgnoringCase(s: string, t: string)
    ensures Lower(s) == Lower(t) <==> EqualIgnoringCase(s, t)
  {
    if Lower(s) == Lower(t) {
      forall i | 0 <= i < |s|
        ensures SameIgnoringCase(s[i], t[i])
      {
        assert Lower(s)[i] == Lower(t)[i];
      }
    }
    if EqualIgnoringCase(s, t) {
      assert forall i :: 0 <= i < |s| ==> Lower(s)[i] == Lower(t)[i];
    }
  }

  /** Normalising a normalised symbol changes nothing. */
  lemma LowerIdempotent(s: string)
    ensures Lower(Lower(s)) == Lower(s)
  {
  }

  /** Two symbols name the same stream exactly when they have the same key. */
  lemma SameStreamIffSameKey(s: string, t: string)
    ensures Stream(s) == Stream(t) <==> Lower(s) == Lower(t)
  {
    if Stream(s) == Stream(t) {
      assert |Lower(s)| == |Lower(t)|;
      assert Lower(s) == Stream(s)[..|Lower(s)|];
      assert Lower(t) == Stream(t)[..|Lower(t)|];
    }
  }

  /** The stream name of a key is the stream name of every symbol with that key. */
  lemma StreamOfKey(s: string)
    ensures Stream(Lower(s)) == Stream(s)
  {
    LowerIdempotent(s);
  }
}
