/** Shared vocabulary of the promocode model: optional values, results,
    points in time and ASCII case folding. */
module Common {

  /** Python's `None` versus a present value. */
  datatype Option<T> = None | Some(value: T)

  /** A value or the error a view raises instead. */
  datatype Result<T, E> = Ok(value: T) | Err(error: E)

  /** Datetimes are counted in microseconds from 0001-01-01T00:00:00,
      so `datetime.min` is 0 and `datetime.max` (9999-12-31T23:59:59.999999)
      is MAX_INSTANT. */
  const MAX_INSTANT: int := 315537897599999999

  type Instant = t: int | 0 <= t <= MAX_INSTANT

  const MIN_INSTANT: Instant := 0

  /** SQL `UPPER` on one ASCII character. */
  function UpperChar(c: char): char
  {
    if 'a' <= c <= 'z' then (c as int - 32) as char else c
  }

  /** SQL `UPPER`: no lower-case letter is left, and each character is
      either kept or is the upper-case form of a lower-case letter. */
  function Upper(s: string): (r: string)
    ensures |r| == |s|
    ensures forall i :: 0 <= i < |s| ==> !('a' <= r[i] <= 'z')
    ensures forall i :: 0 <= i < |s| ==>
              r[i] == s[i] || ('a' <= s[i] <= 'z' && r[i] as int == s[i] as int - 32)
  {
    seq(|s|, i requires 0 <= i < |s| => UpperChar(s[i]))
  }

  /** Django's `iexact` lookup: equality after case folding. */
  predicate IEquals(a: string, b: string)
  {
    Upper(a) == Upper(b)
  }

  /** Two characters that are equal, or the same ASCII letter in two cases. */
  predicate SameIgnoringCase(x: char, y: char)
  {
    x == y ||
    ('a' <= x <= 'z' && y as int == x as int - 32) ||
    ('a' <= y <= 'z' && x as int == y as int - 32)
  }

  lemma UpperCharSame(x: char, y: char)
    ensures UpperChar(x) == UpperChar(y) <==> SameIgnoringCase(x, y)
  {
  }

  /** `iexact` holds exactly when the strings have the same length and agree
      position by position up to the case of ASCII letters. */
  lemma IEqualsIff(a: string, b: string)
    ensures IEquals(a, b) <==>
              |a| == |b| && forall i :: 0 <= i < |a| ==> SameIgnoringCase(a[i], b[i])
  {
    if |a| == |b| && forall i :: 0 <= i < |a| ==> SameIgnoringCase(a[i], b[i]) {
      forall i | 0 <= i < |a|
        ensures Upper(a)[i] == Upper(b)[i]
      {
        UpperCharSame(a[i], b[i]);
      }
    }
    if IEquals(a, b) {
      forall i | 0 <= i < |a|
        ensures SameIgnoringCase(a[i], b[i])
      {
        assert Upper(a)[i] == Upper(b)[i];
        UpperCharSame(a[i], b[i]);
      }
    }
  }

  /** `iexact` is an equivalence: reflexive, symmetric and transitive. */
  lemma IEqualsEquivalence(a: string, b: string, c: string)
    ensures IEquals(a, a)
    ensures IEquals(a, b) ==> IEquals(b, a)
    ensures IEquals(a, b) && IEquals(b, c) ==> IEquals(a, c)
  {
  }

  /** Case matters nowhere else: `iexact` identifies "fr" with "FR" and "Fr",
      and nothing of another length. */
  lemma IEqualsExamples()
    ensures IEquals("fr", "FR") && IEquals("Fr", "fR")
    ensures !IEquals("fr", "f")
    ensures !IEquals("fr", "fs")
  {
    IEqualsIff("fr", "FR");
    IEqualsIff("Fr", "fR");
    IEqualsIff("fr", "fs");
    assert !SameIgnoringCase("fr"[1], "fs"[1]);
  }
}
