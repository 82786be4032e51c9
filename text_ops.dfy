/** String helpers shared by the TypeScript and Python parts of the site:
    optional values, ASCII lower-casing, whitespace trimming in the two
    languages' senses, single-character split and join, decimal rendering of
    counts, and the code-point lexicographic order of `<` on strings
    (JavaScript compares UTF-16 code units; the dates compared are ASCII, where
    the two agree). Dafny's own `<` on sequences is the proper-prefix order. */
module TextOps {

  datatype Option<T> = None | Some(value: T)

  // ---------------------------------------------------------------------
  // Lower-casing

  function LowerChar(c: char): char
  {
    if 'A' <= c <= 'Z' then (c as int + 32) as char else c
  }

  /** `toLowerCase`, restricted to the ASCII letters (see README). */
  function ToLower(s: string): (r: string)
    ensures |r| == |s|
    ensures forall i :: 0 <= i < |s| ==> r[i] == LowerChar(s[i])
  {
    if s == [] then [] else [LowerChar(s[0])] + ToLower(s[1..])
  }

  lemma LowerCharIdempotent(c: char)
    ensures LowerChar(LowerChar(c)) == LowerChar(c)
  {
  }

  /** A string whose every character is already lower-case lowers to itself. */
  lemma ToLowerFixed(x: string)
    requires forall i :: 0 <= i < |x| ==> LowerChar(x[i]) == x[i]
    ensures ToLower(x) == x
  {
    var l := ToLower(x);
    assert forall i :: 0 <= i < |x| ==> l[i] == x[i];
  }

  lemma {:induction false} ToLowerIdempotent(s: string)
    ensures ToLower(ToLower(s)) == ToLower(s)
  {
    var once := ToLower(s);
    var twice := ToLower(once);
    assert forall i :: 0 <= i < |s| ==> twice[i] == once[i];
  }

  lemma ToLowerAppend(a: string, b: string)
    ensures ToLower(a + b) == ToLower(a) + ToLower(b)
  {
    var l, r := ToLower(a + b), ToLower(a) + ToLower(b);
    assert forall i :: 0 <= i < |a + b| ==> l[i] == r[i];
  }

  // ---------------------------------------------------------------------
  // Prefixes, suffixes, substrings

  predicate StartsWith(s: string, prefix: string)
  {
    |prefix| <= |s| && s[..|prefix|] == prefix
  }

  predicate EndsWith(s: string, suffix: string)
  {
    |suffix| <= |s| && s[|s| - |suffix|..] == suffix
  }

  /** `s.includes(sub)` / `sub in s`: some position of `s` starts `sub`. */
  predicate Contains(s: string, sub: string)
    decreases |s|
  {
    StartsWith(s, sub) || (|s| > 0 && Contains(s[1..], sub))
  }

  lemma {:induction false} ContainsAt(s: string, sub: string, i: nat)
    requires i + |sub| <= |s| && s[i..i + |sub|] == sub
    ensures Contains(s, sub)
    decreases i
  {
    if i > 0 {
      assert s[1..][i - 1..i - 1 + |sub|] == sub;
      ContainsAt(s[1..], sub, i - 1);
    }
  }

  lemma {:induction false} ContainsWitness(s: string, sub: string) returns (i: nat)
    requires Contains(s, sub)
    ensures i + |sub| <= |s| && s[i..i + |sub|] == sub
    decreases |s|
  {
    if StartsWith(s, sub) {
      i := 0;
    } else {
      var j := ContainsWitness(s[1..], sub);
      i := j + 1;
      assert s[i..i + |sub|] == s[1..][j..j + |sub|];
    }
  }

  // ---------------------------------------------------------------------
  // Whitespace trimming

  /** The characters JavaScript's `String.prototype.trim` removes
      (WhiteSpace and LineTerminator of ECMA-262). */
  const JsSpace: set<char> :=
    {'\U{0009}', '\U{000A}', '\U{000B}', '\U{000C}', '\U{000D}', '\U{0020}',
     '\U{00A0}', '\U{1680}', '\U{2000}', '\U{2001}', '\U{2002}', '\U{2003}',
     '\U{2004}', '\U{2005}', '\U{2006}', '\U{2007}', '\U{2008}', '\U{2009}',
     '\U{200A}', '\U{2028}', '\U{2029}', '\U{202F}', '\U{205F}', '\U{3000}',
     '\U{FEFF}'}

  /** The characters Python's `str.strip()` removes (those for which
      `str.isspace` holds). */
  const PySpace: set<char> :=
    {'\U{0009}', '\U{000A}', '\U{000B}', '\U{000C}', '\U{000D}', '\U{001C}',
     '\U{001D}', '\U{001E}', '\U{001F}', '\U{0020}', '\U{0085}', '\U{00A0}',
     '\U{1680}', '\U{2000}', '\U{2001}', '\U{2002}', '\U{2003}', '\U{2004}',
     '\U{2005}', '\U{2006}', '\U{2007}', '\U{2008}', '\U{2009}', '\U{200A}',
     '\U{2028}', '\U{2029}', '\U{202F}', '\U{205F}', '\U{3000}'}

  function TrimStart(s: string, ws: set<char>): (r: string)
    ensures |r| <= |s| && r == s[|s| - |r|..]
    ensures forall i :: 0 <= i < |s| - |r| ==> s[i] in ws
    ensures r == [] || r[0] !in ws
  {
    if s != [] && s[0] in ws then TrimStart(s[1..], ws) else s
  }

  function TrimEnd(s: string, ws: set<char>): (r: string)
    ensures |r| <= |s| && r == s[..|r|]
    ensures forall i :: |r| <= i < |s| ==> s[i] in ws
    ensures r == [] || r[|r| - 1] !in ws
  {
    if s != [] && s[|s| - 1] in ws then TrimEnd(s[..|s| - 1], ws) else s
  }

  /** Removes the leading and trailing characters of `ws`. */
  function Trim(s: string, ws: set<char>): string
  {
    TrimEnd(TrimStart(s, ws), ws)
  }

  /** What `Trim` returns is a slice of its input that neither starts nor
      ends with a blank, and only blanks were cut off on either side. */
  lemma TrimSlice(s: string, ws: set<char>) returns (lo: nat, hi: nat)
    ensures lo <= hi <= |s| && Trim(s, ws) == s[lo..hi]
    ensures forall i :: 0 <= i < lo ==> s[i] in ws
    ensures forall i :: hi <= i < |s| ==> s[i] in ws
    ensures Trim(s, ws) == [] || (s[lo] !in ws && s[hi - 1] !in ws)
  {
    var t := TrimStart(s, ws);
    var e := TrimEnd(t, ws);
    lo := |s| - |t|;
    hi := lo + |e|;
    SliceOfSuffix(s, t, e);
  }

  lemma SliceOfSuffix(s: string, t: string, e: string)
    requires |t| <= |s| && t == s[|s| - |t|..]
    requires |e| <= |t| && e == t[..|e|]
    ensures var lo := |s| - |t|;
      && e == s[lo..lo + |e|]
      && forall i :: lo + |e| <= i < |s| ==> s[i] == t[i - lo]
  {
  }

  lemma {:induction false} TrimStartOfClean(s: string, ws: set<char>)
    requires s == [] || s[0] !in ws
    ensures TrimStart(s, ws) == s
  {
  }

  /** A string that neither starts nor ends with a blank trims to itself. */
  lemma TrimOfClean(s: string, ws: set<char>)
    requires s == [] || (s[0] !in ws && s[|s| - 1] !in ws)
    ensures Trim(s, ws) == s
  {
    TrimStartOfClean(s, ws);
  }

  /** A leading blank is cut off. */
  lemma TrimDropsBlank(c: char, s: string, ws: set<char>)
    requires c in ws
    ensures Trim([c] + s, ws) == Trim(s, ws)
  {
    assert ([c] + s)[1..] == s;
  }

  /** Trimming twice is trimming once. */
  lemma TrimIdempotent(s: string, ws: set<char>)
    ensures Trim(Trim(s, ws), ws) == Trim(s, ws)
  {
    var t := Trim(s, ws);
    TrimStartOfClean(t, ws);
  }

  // ---------------------------------------------------------------------
  // Split and join on one separator character

  /** `s.split(sep)` in both languages: the maximal pieces between the
      separators, so there is always one more piece than separators. */
  function Split(s: string, sep: char): (r: seq<string>)
    ensures |r| >= 1
  {
    if s == [] then [""]
    else if s[0] == sep then [""] + Split(s[1..], sep)
    else var rest := Split(s[1..], sep); [[s[0]] + rest[0]] + rest[1..]
  }

  /** `sep.join(xs)` / `xs.join(sep)`. */
  function Join(xs: seq<string>, sep: string): string
  {
    if xs == [] then ""
    else if |xs| == 1 then xs[0]
    else xs[0] + sep + Join(xs[1..], sep)
  }

  lemma {:induction false} JoinSnoc(xs: seq<string>, x: string, sep: string)
    requires xs != []
    ensures Join(xs + [x], sep) == Join(xs, sep) + sep + x
  {
    if |xs| == 1 {
      assert xs + [x] == [xs[0], x];
    } else {
      assert (xs + [x])[1..] == xs[1..] + [x];
      JoinSnoc(xs[1..], x, sep);
    }
  }

  lemma {:induction false} SplitPrepend(c: char, s: string, sep: char)
    requires c != sep
    ensures Split([c] + s, sep) == [[c] + Split(s, sep)[0]] + Split(s, sep)[1..]
  {
    assert ([c] + s)[1..] == s;
  }

  lemma {:induction false} SplitPlain(w: string, rest: string, sep: char)
    requires sep !in w
    ensures Split(w + [sep] + rest, sep) == [w] + Split(rest, sep)
    ensures Split(w, sep) == [w]
    decreases |w|
  {
    if w == [] {
      assert w + [sep] + rest == [sep] + rest;
      assert ([sep] + rest)[1..] == rest;
    } else {
      SplitPlain(w[1..], rest, sep);
      assert w + [sep] + rest == [w[0]] + (w[1..] + [sep] + rest);
      SplitPrepend(w[0], w[1..] + [sep] + rest, sep);
      assert w == [w[0]] + w[1..];
      SplitPrepend(w[0], w[1..], sep);
    }
  }

  /** Splitting what was joined gives the pieces back, as long as no piece
      holds the separator. */
  lemma {:induction false} SplitJoin(xs: seq<string>, sep: char)
    requires xs != []
    requires forall i :: 0 <= i < |xs| ==> sep !in xs[i]
    ensures Split(Join(xs, [sep]), sep) == xs
  {
    if |xs| == 1 {
      SplitPlain(xs[0], "", sep);
    } else {
      SplitJoin(xs[1..], sep);
      assert xs == [xs[0]] + xs[1..];
      JoinCons(xs[0], xs[1..], [sep]);
      SplitPlain(xs[0], Join(xs[1..], [sep]), sep);
    }
  }

  /** And joining what was split gives the string back. */
  lemma {:induction false} JoinSplit(s: string, sep: char)
    ensures Join(Split(s, sep), [sep]) == s
  {
    if s != [] {
      var c, t := s[0], s[1..];
      assert s == [c] + t;
      JoinSplit(t, sep);
      var r := Split(t, sep);
      if c == sep {
        SplitAtSep(t, sep);
        JoinCons("", r, [sep]);
      } else {
        SplitPrepend(c, t, sep);
        if |r| == 1 {
          assert [[c] + r[0]] + r[1..] == [[c] + r[0]];
        } else {
          JoinCons([c] + r[0], r[1..], [sep]);
          JoinCons(r[0], r[1..], [sep]);
          assert r == [r[0]] + r[1..];
        }
      }
    }
  }

  lemma JoinCons(x: string, xs: seq<string>, sep: string)
    requires xs != []
    ensures Join([x] + xs, sep) == x + sep + Join(xs, sep)
  {
    assert ([x] + xs)[1..] == xs;
  }

  lemma SplitAtSep(s: string, sep: char)
    ensures Split([sep] + s, sep) == [""] + Split(s, sep)
  {
    assert ([sep] + s)[1..] == s;
  }

  /** Splitting at one separator splits the two sides independently. */
  lemma {:induction false} SplitConcat(a: string, b: string, sep: char)
    ensures Split(a + [sep] + b, sep) == Split(a, sep) + Split(b, sep)
  {
    if a == [] {
      assert a + [sep] + b == [sep] + b;
      SplitAtSep(b, sep);
    } else {
      SplitConcat(a[1..], b, sep);
      SplitConcatStep(a[0], a[1..], b, sep);
      assert [a[0]] + a[1..] == a;
    }
  }

  /** The inductive step of `SplitConcat`: one more character in front. */
  lemma SplitConcatStep(c: char, a: string, b: string, sep: char)
    requires Split(a + [sep] + b, sep) == Split(a, sep) + Split(b, sep)
    ensures Split([c] + a + [sep] + b, sep) == Split([c] + a, sep) + Split(b, sep)
  {
    var tail := a + [sep] + b;
    assert [c] + a + [sep] + b == [c] + tail;
    var sa, sb := Split(a, sep), Split(b, sep);
    if c == sep {
      SplitAtSep(tail, sep);
      SplitAtSep(a, sep);
      AppendAssoc([""], sa, sb);
    } else {
      SplitPrepend(c, tail, sep);
      SplitPrepend(c, a, sep);
      ConsFirstConcat([c], sa, sb);
    }
  }

  lemma AppendAssoc<T>(a: seq<T>, b: seq<T>, c: seq<T>)
    ensures a + (b + c) == a + b + c
  {
  }

  /** Gluing a prefix onto the first piece commutes with appending pieces. */
  lemma ConsFirstConcat(p: string, sa: seq<string>, sb: seq<string>)
    requires |sa| >= 1
    ensures [p + (sa + sb)[0]] + (sa + sb)[1..] == [p + sa[0]] + sa[1..] + sb
  {
    assert (sa + sb)[0] == sa[0];
    assert (sa + sb)[1..] == sa[1..] + sb;
  }

  // ---------------------------------------------------------------------
  // Decimal rendering of counts

  function DigitChar(d: nat): char
    requires d < 10
  {
    ('0' as int + d) as char
  }

  predicate IsDigit(c: char)
  {
    '0' <= c <= '9'
  }

  /** `str(n)` / `${n}` for a non-negative integer. */
  function NatToString(n: nat): (r: string)
    ensures |r| >= 1
    ensures forall i :: 0 <= i < |r| ==> IsDigit(r[i])
  {
    if n < 10 then [DigitChar(n)] else NatToString(n / 10) + [DigitChar(n % 10)]
  }

  function ParseDigits(s: string): nat
    requires forall i :: 0 <= i < |s| ==> IsDigit(s[i])
  {
    if s == [] then 0
    else
      var last := s[|s| - 1];
      assert IsDigit(last);
      ParseDigits(s[..|s| - 1]) * 10 + (last as int - '0' as int)
  }

  /** The decimal text of a count reads back as that count. */
  lemma {:induction false} NatToStringRoundTrip(n: nat)
    ensures ParseDigits(NatToString(n)) == n
  {
    if n >= 10 {
      NatToStringRoundTrip(n / 10);
      var r := NatToString(n);
      assert r[..|r| - 1] == NatToString(n / 10);
    }
  }

  // ---------------------------------------------------------------------
  // Lexicographic order (JavaScript and Python string `<`)

  predicate LexLess(a: string, b: string)
  {
    if b == [] then false
    else if a == [] then true
    else if a[0] != b[0] then a[0] < b[0]
    else LexLess(a[1..], b[1..])
  }

  /** `a <= b` on strings. */
  predicate LexLe(a: string, b: string)
  {
    !LexLess(b, a)
  }

  lemma {:induction false} LexIrreflexive(a: string)
    ensures !LexLess(a, a)
  {
    if a != [] {
      LexIrreflexive(a[1..]);
    }
  }

  lemma {:induction false} LexTransitive(a: string, b: string, c: string)
    requires LexLess(a, b) && LexLess(b, c)
    ensures LexLess(a, c)
  {
    if a != [] && a[0] == b[0] && b[0] == c[0] {
      LexTransitive(a[1..], b[1..], c[1..]);
    }
  }

  lemma {:induction false} LexTotal(a: string, b: string)
    ensures a == b || LexLess(a, b) || LexLess(b, a)
  {
    if a != [] && b != [] && a[0] == b[0] {
      LexTotal(a[1..], b[1..]);
      if a[1..] == b[1..] {
        assert a == [a[0]] + a[1..] && b == [b[0]] + b[1..];
      }
    }
  }

  /** Two strings that agree up to `i` and differ there compare as their
      characters at `i` do. */
  lemma {:induction false} LexLessAt(a: string, b: string, i: nat)
    requires i < |a| && i < |b| && a[..i] == b[..i] && a[i] < b[i]
    ensures LexLess(a, b)
  {
    if i > 0 {
      assert a[0] == a[..i][0] && b[0] == b[..i][0];
      assert a[1..][..i - 1] == a[..i][1..] && b[1..][..i - 1] == b[..i][1..];
      LexLessAt(a[1..], b[1..], i - 1);
    }
  }

  lemma LexAsymmetric(a: string, b: string)
    requires LexLess(a, b)
    ensures !LexLess(b, a)
  {
    if LexLess(b, a) {
      LexTransitive(a, b, a);
      LexIrreflexive(a);
    }
  }

  /** `<=` on strings is a total order: total, transitive, antisymmetric. */
  lemma LexLeTotalOrder()
    ensures forall a, b :: LexLe(a, b) || LexLe(b, a)
    ensures forall a, b, c :: LexLe(a, b) && LexLe(b, c) ==> LexLe(a, c)
    ensures forall a, b :: LexLe(a, b) && LexLe(b, a) ==> a == b
  {
    forall a, b ensures LexLe(a, b) || LexLe(b, a) {
      if LexLess(a, b) { LexAsymmetric(a, b); }
    }
    forall a, b, c | LexLe(a, b) && LexLe(b, c) ensures LexLe(a, c) {
      LexTotal(a, b);
      LexTotal(b, c);
      if LexLess(c, a) {
        if a == b {
        } else if b == c {
        } else {
          LexTransitive(a, b, c);
          LexAsymmetric(a, c);
        }
      }
    }
    forall a, b | LexLe(a, b) && LexLe(b, a) ensures a == b {
      LexTotal(a, b);
    }
  }
}
