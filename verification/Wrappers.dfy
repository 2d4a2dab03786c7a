/** Optional values and addresses, shared by the deployment modules. */
module Wrappers {
  datatype Option<+T> = None | Some(value: T) {
    function GetOr(default: T): T {
      match this
      case Some(v) => v
      case None => default
    }
  }

  datatype Result<+T> = Ok(value: T) | Err
}

/**
 * Addresses are strings; every comparison the deployment code makes ignores letter case.
 * The chain itself is keyed by the lower-case form.
 */
module Addresses {
  import opened Wrappers

  function LowerChar(c: char): char {
    if 'A' <= c <= 'Z' then c + 32 as char else c
  }

  function Lower(s: string): (r: string)
    ensures |r| == |s|
  {
    seq(|s|, i requires 0 <= i < |s| => LowerChar(s[i]))
  }

  lemma LowerTwice(a: string)
    ensures Lower(Lower(a)) == Lower(a)
  {
  }

  predicate Same(a: string, b: string) {
    Lower(a) == Lower(b)
  }

  /** Equal, or the two cases of one letter. */
  predicate SameLetter(a: char, b: char) {
    || a == b
    || ('A' <= a <= 'Z' && 'a' <= b <= 'z' && a - 'A' == b - 'a')
    || ('a' <= a <= 'z' && 'A' <= b <= 'Z' && a - 'a' == b - 'A')
  }

  /** The same text but for letter case. */
  predicate SameButCase(a: string, b: string) {
    |a| == |b| && forall i :: 0 <= i < |a| ==> SameLetter(a[i], b[i])
  }

  lemma LetterIff(a: char, b: char)
    ensures LowerChar(a) == LowerChar(b) <==> SameLetter(a, b)
  {
  }

  /** The comparison ignores letter case, and nothing else. */
  lemma SameIff(a: string, b: string)
    ensures Same(a, b) <==> SameButCase(a, b)
  {
    if Same(a, b) {
      forall i | 0 <= i < |a| ensures SameLetter(a[i], b[i]) {
        assert Lower(a)[i] == Lower(b)[i];
        LetterIff(a[i], b[i]);
      }
    } else if |a| == |b| {
      var i :| 0 <= i < |a| && Lower(a)[i] != Lower(b)[i];
      LetterIff(a[i], b[i]);
    }
  }

  /** `x?.toLowerCase() === a.toLowerCase()`: an absent address equals nothing. */
  predicate SameOpt(x: Option<string>, a: string) {
    x.Some? && Same(x.value, a)
  }

  /** A present, non-empty string. */
  predicate Truthy(x: Option<string>) {
    x.Some? && x.value != ""
  }

  const ZERO_ADDRESS: string := "0x0000000000000000000000000000000000000000"
}

/** Facts about concatenation, stated once so that proofs elsewhere stay small. */
module Sequences {
  lemma Associates<T>(a: seq<T>, b: seq<T>, c: seq<T>)
    ensures (a + b) + c == a + (b + c)
  {
  }

  lemma Unit<T>(a: seq<T>)
    ensures a + [] == a && [] + a == a
  {
  }

  lemma HeadTail<T>(a: seq<T>)
    requires a != []
    ensures [a[0]] + a[1..] == a
  {
  }

  lemma Around<T>(a: seq<T>, i: nat)
    requires i < |a|
    ensures a[..i] + ([a[i]] + a[i + 1..]) == a
  {
  }
}
