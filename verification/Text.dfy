/** Characters as the detector sees them: the ASCII classes of its regular expressions, Python's
    whitespace, and the two Unicode tables it consults. */
module Text {

  predicate IsDigit(c: char) {
    '0' <= c <= '9'
  }

  /** The class `[a-z0-9]`. */
  predicate IsAlnum(c: char) {
    'a' <= c <= 'z' || IsDigit(c)
  }

  /** The class `[^a-z0-9 ]`. */
  predicate IsOther(c: char) {
    !IsAlnum(c) && c != ' '
  }

  /** Whitespace, the same set for `str.strip` and for `\s`. */
  predicate IsSpace(c: char) {
    var n := c as int;
    || 9 <= n <= 13 || 28 <= n <= 32 || n == 0x85 || n == 0xA0 || n == 0x1680
    || 0x2000 <= n <= 0x200A || n == 0x2028 || n == 0x2029 || n == 0x202F || n == 0x205F || n == 0x3000
  }

  /** What `strip` removes. */
  lemma SpacesAre(c: char)
    ensures IsSpace(c) <==> c in {'\t', '\n', '\U{0B}', '\U{0C}', '\r', '\U{1C}', '\U{1D}', '\U{1E}', '\U{1F}', ' ',
                                  '\U{85}', '\U{A0}', '\U{1680}', '\U{2000}', '\U{2001}', '\U{2002}', '\U{2003}',
                                  '\U{2004}', '\U{2005}', '\U{2006}', '\U{2007}', '\U{2008}', '\U{2009}', '\U{200A}',
                                  '\U{2028}', '\U{2029}', '\U{202F}', '\U{205F}', '\U{3000}'}
  {
  }

  /** The Unicode data the code relies on.
      `fold` is lower-casing, NFKD and removal of combining marks, one character at a time: a combining
      mark folds to the empty string. `control` is general category C (control, format, unassigned). */
  datatype Unicode = Unicode(fold: char -> string, control: char -> bool)
  {
    /** What the actual tables satisfy, and all the proofs use of them. */
    ghost predicate Faithful() {
      && (forall c: char | IsAlnum(c) || c == ' ' :: fold(c) == [c] && !control(c))
      && (forall c: char | IsSpace(c) || control(c) :: fold(c) != [] && Blank(fold(c)))
      && control('\n') && control('\r') && control('\t') && control('\U{FEFF}')
    }
  }

  /** No character of `s` survives quote normalisation as a letter or a digit. */
  predicate Blank(s: string) {
    forall i | 0 <= i < |s| :: !IsAlnum(s[i])
  }

  function Fold(u: Unicode, s: string): string {
    if s == [] then [] else u.fold(s[0]) + Fold(u, s[1..])
  }

  /** The letters and digits of `s`, in order. */
  function Letters(s: string): string {
    if s == [] then []
    else if IsAlnum(s[0]) then [s[0]] + Letters(s[1..])
    else Letters(s[1..])
  }

  function Lstrip(s: string): string {
    if s != [] && IsSpace(s[0]) then Lstrip(s[1..]) else s
  }

  function Rstrip(s: string): string {
    if s != [] && IsSpace(s[|s| - 1]) then Rstrip(s[..|s| - 1]) else s
  }

  function Strip(s: string): string {
    Rstrip(Lstrip(s))
  }

  predicate WithinAt(needle: string, haystack: string, i: int) {
    0 <= i <= |haystack| - |needle| && haystack[i..i + |needle|] == needle
  }

  /** `needle in haystack`, for strings. */
  predicate Within(needle: string, haystack: string) {
    exists i | 0 <= i <= |haystack| - |needle| :: WithinAt(needle, haystack, i)
  }

  lemma WithinTransitive(a: string, b: string, c: string)
    requires Within(a, b) && Within(b, c)
    ensures Within(a, c)
  {
    var i :| 0 <= i <= |b| - |a| && WithinAt(a, b, i);
    var j :| 0 <= j <= |c| - |b| && WithinAt(b, c, j);
    forall k | 0 <= k < |a|
      ensures a[k] == c[j + i + k]
    {
      assert a[k] == b[i..i + |a|][k] == b[i + k] == c[j..j + |b|][i + k];
    }
    assert c[j + i..j + i + |a|] == a;
    assert WithinAt(a, c, j + i);
  }

  lemma WithinConcat(a: string, m: string, b: string)
    ensures Within(m, a + m + b)
  {
    assert WithinAt(m, a + m + b, |a|);
  }

  lemma {:induction false} FoldConcat(u: Unicode, s: string, t: string)
    ensures Fold(u, s + t) == Fold(u, s) + Fold(u, t)
  {
    if s == [] {
      assert s + t == t;
    } else {
      assert (s + t)[1..] == s[1..] + t;
      FoldConcat(u, s[1..], t);
    }
  }

  lemma {:induction false} LettersConcat(s: string, t: string)
    ensures Letters(s + t) == Letters(s) + Letters(t)
  {
    if s == [] {
      assert s + t == t;
    } else {
      assert (s + t)[1..] == s[1..] + t;
      LettersConcat(s[1..], t);
    }
  }

  lemma {:induction false} FoldBlank(u: Unicode, s: string)
    requires u.Faithful()
    requires forall i | 0 <= i < |s| :: IsSpace(s[i]) || u.control(s[i])
    ensures Blank(Fold(u, s)) && (s != [] ==> Fold(u, s) != [])
  {
    if s != [] {
      FoldBlank(u, s[1..]);
    }
  }

  /** Stripping removes a run of whitespace at each end and nothing else. */
  lemma {:induction false} LstripSplit(s: string) returns (a: string)
    ensures s == a + Lstrip(s) && forall i | 0 <= i < |a| :: IsSpace(a[i])
    ensures Lstrip(s) != [] ==> !IsSpace(Lstrip(s)[0])
  {
    if s != [] && IsSpace(s[0]) {
      var b := LstripSplit(s[1..]);
      a := [s[0]] + b;
    } else {
      a := [];
    }
  }

  lemma {:induction false} RstripSplit(s: string) returns (b: string)
    ensures s == Rstrip(s) + b && forall i | 0 <= i < |b| :: IsSpace(b[i])
    ensures Rstrip(s) != [] ==> !IsSpace(Rstrip(s)[|Rstrip(s)| - 1])
  {
    if s != [] && IsSpace(s[|s| - 1]) {
      var a := RstripSplit(s[..|s| - 1]);
      b := a + [s[|s| - 1]];
    } else {
      b := [];
    }
  }

  lemma StripSplit(s: string) returns (a: string, b: string)
    ensures s == a + Strip(s) + b
    ensures forall i | 0 <= i < |a| :: IsSpace(a[i])
    ensures forall i | 0 <= i < |b| :: IsSpace(b[i])
    ensures Strip(s) != [] ==> !IsSpace(Strip(s)[0]) && !IsSpace(Strip(s)[|Strip(s)| - 1])
  {
    a := LstripSplit(s);
    b := RstripSplit(Lstrip(s));
    if Strip(s) != [] {
      assert Lstrip(s)[0] == Strip(s)[0];
    }
  }

  /** Stripping a text bounded by non-blank characters, whatever blanks surround it. */
  lemma {:induction false} StripPadded(a: string, m: string, b: string)
    requires forall i | 0 <= i < |a| :: IsSpace(a[i])
    requires forall i | 0 <= i < |b| :: IsSpace(b[i])
    requires m != [] ==> !IsSpace(m[0]) && !IsSpace(m[|m| - 1])
    ensures Strip(a + m + b) == m
    decreases |a|, |b|
  {
    var s := a + m + b;
    if a != [] {
      assert s[1..] == a[1..] + m + b;
      StripPadded(a[1..], m, b);
    } else if m != [] {
      assert s[0] == m[0];
      if b != [] {
        assert s[..|s| - 1] == a + m + b[..|b| - 1];
        StripPadded(a, m, b[..|b| - 1]);
        assert a + m + b[..|b| - 1] == Lstrip(a + m + b[..|b| - 1]);
      } else {
        assert s == m;
      }
    } else if b != [] {
      assert s == b && s[1..] == a + m + b[1..];
      StripPadded(a, m, b[1..]);
    }
  }

  lemma StripTwice(s: string)
    ensures Strip(Strip(s)) == Strip(s)
  {
    var m := Strip(s);
    var a, b := StripSplit(s);
    if m != [] {
      StripPadded([], m, []);
      assert [] + m + [] == m;
    }
  }

  lemma Regroup<T>(a: seq<T>, b: seq<T>, c: seq<T>)
    ensures (a + b) + c == a + (b + c)
  {
  }

  lemma SumFrom(a: string, b: string, n: nat)
    requires n <= |a|
    ensures (a + b)[n..] == a[n..] + b && forall i | 0 <= i < |a| :: (a + b)[i] == a[i]
  {
  }

  lemma FromFrom(s: string, i: nat, j: nat)
    requires i + j <= |s|
    ensures s[i..][j..] == s[i + j..]
  {
  }
}
