/**
 * The parts of Python's `str` that the validator relies on: `isspace`,
 * `upper`, `lower`, `isupper`, `strip`, `startswith`, the `in` substring
 * test, `" ".join` and `re.sub(r'\s+', ' ', ...)`.
 *
 * Letter case covers ASCII and the Latin-1 letter pairs (U+00C0-U+00DE and
 * U+00E0-U+00FE, without the multiplication and division signs), which is
 * where Spanish label text lives; every other character is uncased.
 */
module PyStr {

  /** The characters Python's `str.isspace()` accepts (also what `\s` matches). */
  predicate IsSpace(c: char) {
    || c == ' ' || c == '\t' || c == '\n' || c == '\r'
    || c == '\U{B}' || c == '\U{C}'
    || ('\U{1C}' <= c <= '\U{1F}')
    || c == '\U{85}' || c == '\U{A0}' || c == '\U{1680}'
    || ('\U{2000}' <= c <= '\U{200A}')
    || c == '\U{2028}' || c == '\U{2029}' || c == '\U{202F}' || c == '\U{205F}' || c == '\U{3000}'
  }

  predicate IsUpperChar(c: char) {
    ('A' <= c <= 'Z') || ('\U{C0}' <= c <= '\U{DE}' && c != '\U{D7}')
  }

  predicate IsLowerChar(c: char) {
    ('a' <= c <= 'z') || ('\U{E0}' <= c <= '\U{FE}' && c != '\U{F7}')
  }

  predicate IsCased(c: char) {
    IsUpperChar(c) || IsLowerChar(c)
  }

  function UpperChar(c: char): (u: char)
    ensures !IsLowerChar(u)
    ensures IsCased(c) <==> IsCased(u)
  {
    if IsLowerChar(c) then (c as int - 32) as char else c
  }

  function LowerChar(c: char): (l: char)
    ensures !IsUpperChar(l)
    ensures IsCased(c) <==> IsCased(l)
  {
    if IsUpperChar(c) then (c as int + 32) as char else c
  }

  /** `s.upper()` */
  function Upper(s: string): (u: string)
    ensures |u| == |s|
    ensures forall i :: 0 <= i < |s| ==> u[i] == UpperChar(s[i])
  {
    seq(|s|, i requires 0 <= i < |s| => UpperChar(s[i]))
  }

  /** `s.lower()` */
  function Lower(s: string): (l: string)
    ensures |l| == |s|
    ensures forall i :: 0 <= i < |s| ==> l[i] == LowerChar(s[i])
  {
    seq(|s|, i requires 0 <= i < |s| => LowerChar(s[i]))
  }

  /**
   * `s.isupper()`: at least one cased character, and every cased character
   * is upper case.
   */
  predicate IsUpper(s: string) {
    && (exists i :: 0 <= i < |s| && IsCased(s[i]))
    && (forall i :: 0 <= i < |s| && IsCased(s[i]) ==> IsUpperChar(s[i]))
  }

  /** `s.startswith(p)` */
  predicate StartsWith(s: string, p: string) {
    |p| <= |s| && s[..|p|] == p
  }

  /** `sub in s`, searched from the front. */
  predicate Contains(s: string, sub: string)
    decreases |s|
  {
    StartsWith(s, sub) || (|s| > 0 && Contains(s[1..], sub))
  }

  /** Drops leading whitespace, as `lstrip()` does. */
  function TrimStart(s: string): (t: string)
    ensures |t| <= |s| && t == s[|s| - |t|..]
    ensures t == [] || !IsSpace(t[0])
    ensures forall i :: 0 <= i < |s| - |t| ==> IsSpace(s[i])
  {
    if s != [] && IsSpace(s[0]) then TrimStart(s[1..]) else s
  }

  /** Drops trailing whitespace, as `rstrip()` does. */
  function TrimEnd(s: string): (t: string)
    ensures |t| <= |s| && t == s[..|t|]
    ensures t == [] || !IsSpace(t[|t| - 1])
    ensures forall i :: |t| <= i < |s| ==> IsSpace(s[i])
  {
    if s != [] && IsSpace(s[|s| - 1]) then TrimEnd(s[..|s| - 1]) else s
  }

  /** `s.strip()` */
  function Strip(s: string): string {
    TrimEnd(TrimStart(s))
  }

  /** `" ".join(xs)` */
  function Join(xs: seq<string>): string {
    if |xs| == 0 then ""
    else if |xs| == 1 then xs[0]
    else xs[0] + " " + Join(xs[1..])
  }

  /** `re.sub(r'\s+', ' ', s)`: every maximal run of whitespace becomes one space. */
  function CollapseSpaces(s: string): (t: string)
    ensures |t| <= |s|
    decreases |s|
  {
    if s == [] then []
    else if IsSpace(s[0]) then " " + CollapseSpaces(TrimStart(s[1..]))
    else [s[0]] + CollapseSpaces(s[1..])
  }

  /** `s[:n]` for a non-negative `n`. */
  function Prefix(s: string, n: nat): (p: string)
    ensures |p| <= n && StartsWith(s, p)
  {
    if |s| <= n then s else s[..n]
  }

  /** Everything before the first `sep`, as `s.split(sep)[0]`. */
  function Before(s: string, sep: char): (p: string)
    ensures StartsWith(s, p) && sep !in p
  {
    if s == [] || s[0] == sep then [] else [s[0]] + Before(s[1..], sep)
  }

  // ---------------------------------------------------------------------
  // Properties

  /** Stripped text has no whitespace at either end. */
  lemma StripEdges(s: string)
    ensures var t := Strip(s);
      t == [] || (!IsSpace(t[0]) && !IsSpace(t[|t| - 1]))
  {
    var u := TrimStart(s);
    var t := TrimEnd(u);
    if t != [] {
      assert t[0] == u[0];
    }
  }

  /**
   * Stripped text is the piece of the input left after removing a run of
   * whitespace at each end, and it has no whitespace at either end.
   */
  lemma StripShape(s: string)
    ensures var t := Strip(s);
      && (exists a, b :: 0 <= a <= b <= |s| && t == s[a..b]
            && (forall i :: 0 <= i < a ==> IsSpace(s[i]))
            && (forall i :: b <= i < |s| ==> IsSpace(s[i])))
      && (t == [] || (!IsSpace(t[0]) && !IsSpace(t[|t| - 1])))
  {
    var u := TrimStart(s);
    var t := TrimEnd(u);
    var a := |s| - |u|;
    var b := a + |t|;
    assert u == s[a..] && t == u[..|t|];
    assert s[a..][..|t|] == s[a..b];
    assert 0 <= a <= b <= |s| && t == s[a..b];
    forall i | b <= i < |s|
      ensures IsSpace(s[i])
    {
      assert s[i] == u[i - a];
    }
    StripEdges(s);
  }

  lemma {:induction false} TrimStartAllSpace(s: string)
    requires forall i :: 0 <= i < |s| ==> IsSpace(s[i])
    ensures TrimStart(s) == []
  {
    if s != [] {
      TrimStartAllSpace(s[1..]);
    }
  }

  /** `s.strip()` is empty exactly when `s` is all whitespace. */
  lemma StripEmptyIff(s: string)
    ensures Strip(s) == [] <==> forall i :: 0 <= i < |s| ==> IsSpace(s[i])
  {
    var u := TrimStart(s);
    if Strip(s) == [] {
      assert u == [];
    }
    if forall i :: 0 <= i < |s| ==> IsSpace(s[i]) {
      TrimStartAllSpace(s);
    }
  }

  /** Stripping twice changes nothing. */
  lemma StripIdempotent(s: string)
    ensures Strip(Strip(s)) == Strip(s)
  {
    var t := Strip(s);
    assert TrimStart(t) == t;
    StripShape(s);
  }

  /** `isupper()` can only hold of a string that `upper()` leaves unchanged. */
  lemma IsUpperFixedByUpper(s: string)
    requires IsUpper(s)
    ensures Upper(s) == s
  {
    forall i | 0 <= i < |s| ensures Upper(s)[i] == s[i] {
      assert !IsLowerChar(s[i]);
    }
  }

  /** A string holding a lower-case letter is never a substring of an upper-cased text. */
  lemma {:induction false} LowerNotInUpper(s: string, sub: string, k: nat)
    requires k < |sub| && IsLowerChar(sub[k])
    ensures !Contains(Upper(s), sub)
    decreases |s|
  {
    var u := Upper(s);
    if |sub| <= |u| {
      assert u[..|sub|][k] == u[k];
      assert !IsLowerChar(u[k]);
    }
    if |s| > 0 {
      assert Upper(s)[1..] == Upper(s[1..]);
      LowerNotInUpper(s[1..], sub, k);
    }
  }

  /** `sub` sits in `s` starting at index `a`. */
  predicate OccursAt(s: string, sub: string, a: nat) {
    a + |sub| <= |s| && s[a..a + |sub|] == sub
  }

  /** The front-to-back search agrees with the positional definition of `sub in s`. */
  lemma {:induction false} ContainsIff(s: string, sub: string)
    ensures Contains(s, sub) <==> exists a: nat :: OccursAt(s, sub, a)
    decreases |s|
  {
    if StartsWith(s, sub) {
      assert OccursAt(s, sub, 0);
    }
    if |s| > 0 {
      ContainsIff(s[1..], sub);
      if Contains(s[1..], sub) {
        var a: nat :| OccursAt(s[1..], sub, a);
        assert s[a + 1..a + 1 + |sub|] == s[1..][a..a + |sub|];
        assert OccursAt(s, sub, a + 1);
      }
      if exists a: nat :: OccursAt(s, sub, a) {
        var a: nat :| OccursAt(s, sub, a);
        if a > 0 {
          assert s[1..][a - 1..a - 1 + |sub|] == s[a..a + |sub|];
          assert OccursAt(s[1..], sub, a - 1);
        }
      }
    } else if exists a: nat :: OccursAt(s, sub, a) {
      var a: nat :| OccursAt(s, sub, a);
      assert s[..|sub|] == s[a..a + |sub|];
    }
  }
}
