/** The JavaScript string operations the crawler and the file transform rely
    on, written out over `seq<char>`: `split`/`join` on one character,
    `trim`, `startsWith`, `includes`, `replaceAll` of one character,
    `toLowerCase` on ASCII letters, the `/\/+$/` trailing-slash strip,
    POSIX `path.basename`, and insertion-ordered de-duplication
    (`[...new Set(xs)]`). */
module Text {
  import opened Wrappers

  /** JavaScript truthiness of an optional string: `undefined` and `""` are
      falsy. */
  predicate TruthyString(s: Option<string>) {
    s.Some? && s.value != ""
  }

  /** No element occurs twice. */
  predicate NoDups<T(==)>(s: seq<T>) {
    forall i, j :: 0 <= i < j < |s| ==> s[i] != s[j]
  }

  predicate StartsWith(s: string, prefix: string) {
    |prefix| <= |s| && s[..|prefix|] == prefix
  }

  /** `s.includes(sub)`. */
  predicate Contains(s: string, sub: string)
    decreases |s|
  {
    StartsWith(s, sub) || (|s| > 0 && Contains(s[1..], sub))
  }

  lemma {:induction false} ContainsAt(s: string, sub: string, i: nat)
    requires i + |sub| <= |s| && s[i..i + |sub|] == sub
    ensures Contains(s, sub)
    decreases i
  {
    if i > 0 {
      assert s[1..][i - 1..i - 1 + |sub|] == s[i..i + |sub|];
      ContainsAt(s[1..], sub, i - 1);
    }
  }

  /** `s.replaceAll(from, to)` for single-character `from` and `to`. */
  function ReplaceChar(s: string, from: char, to: char): (r: string)
    ensures |r| == |s|
    ensures forall i :: 0 <= i < |s| ==> r[i] == (if s[i] == from then to else s[i])
  {
    seq(|s|, i requires 0 <= i < |s| => if s[i] == from then to else s[i])
  }

  /** `s.split(sep)` for a one-character separator: the fields between
      separators, left to right; a string without `sep` is one field. */
  function Split(s: string, sep: char): (parts: seq<string>)
    ensures |parts| >= 1
    decreases |s|
  {
    if s == [] then [[]]
    else
      var parts := Split(s[..|s| - 1], sep);
      if s[|s| - 1] == sep then parts + [[]]
      else parts[..|parts| - 1] + [parts[|parts| - 1] + [s[|s| - 1]]]
  }

  /** `parts.join(sep)`. */
  function Join(parts: seq<string>, sep: string): string
    decreases |parts|
  {
    if |parts| == 0 then []
    else if |parts| == 1 then parts[0]
    else Join(parts[..|parts| - 1], sep) + sep + parts[|parts| - 1]
  }

  /** No field of a split holds the separator. */
  lemma {:induction false} SplitFieldsFree(s: string, sep: char)
    ensures forall k :: 0 <= k < |Split(s, sep)| ==> sep !in Split(s, sep)[k]
    decreases |s|
  {
    if s != [] {
      var init, ch := s[..|s| - 1], s[|s| - 1];
      SplitFieldsFree(init, sep);
      var p := Split(init, sep);
      var n := |p|;
      if ch != sep {
        var q := p[..n - 1] + [p[n - 1] + [ch]];
        assert Split(s, sep) == q;
        forall k | 0 <= k < |q| ensures sep !in q[k] {
          if k == n - 1 {
            assert sep !in p[n - 1];
          } else {
            assert q[k] == p[k];
          }
        }
      }
    }
  }

  /** Splitting and joining again gives the string back, and no field holds
      the separator. */
  lemma {:induction false} SplitJoin(s: string, sep: char)
    ensures Join(Split(s, sep), [sep]) == s
    ensures forall k :: 0 <= k < |Split(s, sep)| ==> sep !in Split(s, sep)[k]
    decreases |s|
  {
    SplitFieldsFree(s, sep);
    if s != [] {
      var init, ch := s[..|s| - 1], s[|s| - 1];
      assert s == init + [ch];
      SplitJoin(init, sep);
      var p := Split(init, sep);
      var n := |p|;
      if ch == sep {
        var q := p + [[]];
        assert Split(s, sep) == q;
        assert q[..n] == p;
        assert Join(q, [sep]) == Join(p, [sep]) + [sep] + [];
      } else {
        var q := p[..n - 1] + [p[n - 1] + [ch]];
        assert Split(s, sep) == q;
        if n > 1 {
          assert q[..n - 1] == p[..n - 1];
          assert Join(q, [sep]) == Join(p[..n - 1], [sep]) + [sep] + (p[n - 1] + [ch]);
          assert Join(p, [sep]) == Join(p[..n - 1], [sep]) + [sep] + p[n - 1];
        } else {
          assert Join(q, [sep]) == p[0] + [ch];
        }
      }
    }
  }

  /** The first field of a split is the text before the first separator. */
  lemma {:induction false} SplitHead(s: string, sep: char)
    ensures sep !in Split(s, sep)[0]
    ensures Split(s, sep)[0] <= s
    ensures |Split(s, sep)[0]| < |s| ==> s[|Split(s, sep)[0]|] == sep
    ensures |Split(s, sep)| > 1 ==> |Split(s, sep)[0]| < |s|
    decreases |s|
  {
    if s != [] {
      var init, ch := s[..|s| - 1], s[|s| - 1];
      assert s == init + [ch];
      SplitHead(init, sep);
      var p := Split(init, sep);
      var h := p[0];
      var r := Split(s, sep);
      if ch == sep {
        assert r == p + [[]];
        assert r[0] == h;
        assert |h| <= |init|;
        if |h| < |init| {
          assert s[|h|] == init[|h|];
        }
      } else if |p| == 1 {
        assert r == [h + [ch]];
        assert h == init by { SplitJoin(init, sep); }
      } else {
        assert r == p[..|p| - 1] + [p[|p| - 1] + [ch]];
        assert r[0] == h;
        assert s[|h|] == init[|h|];
      }
    }
  }

  /** The fields before the last one, joined again, are the text before the
      last separator; with no separator that text is empty. */
  lemma BeforeLastField(s: string, sep: char)
    ensures var p := Split(s, sep);
      var before := Join(p[..|p| - 1], [sep]);
      (sep !in s ==> before == []) &&
      (sep in s ==> |before| < |s| && s[|before|] == sep && sep !in s[|before| + 1..]
                    && before == s[..|before|])
  {
    SplitJoin(s, sep);
    var p := Split(s, sep);
    var n := |p|;
    if n == 1 {
      assert sep !in p[0];
    } else {
      var before := Join(p[..n - 1], [sep]);
      assert p[..n - 1][..n - 2] == p[..n - 2];
      assert s == before + [sep] + p[n - 1];
      assert s[|before| + 1..] == p[n - 1];
      assert sep !in p[n - 1];
    }
  }

  /** The JavaScript `trim` white-space set: WhiteSpace and LineTerminator of
      ECMA-262. */
  predicate IsJsSpace(c: char) {
    c in JsSpaces
  }

  const JsSpaces: set<char> := {
    '\t', '\n', '\U{000B}', '\U{000C}', '\r', ' ', '\U{00A0}', '\U{1680}',
    '\U{2000}', '\U{2001}', '\U{2002}', '\U{2003}', '\U{2004}', '\U{2005}',
    '\U{2006}', '\U{2007}', '\U{2008}', '\U{2009}', '\U{200A}',
    '\U{2028}', '\U{2029}', '\U{202F}', '\U{205F}', '\U{3000}', '\U{FEFF}'}

  /** The number of white-space characters `s` starts with. */
  function LeadingSpaces(s: string): (n: nat)
    ensures n <= |s|
    ensures forall i :: 0 <= i < n ==> IsJsSpace(s[i])
    ensures n == |s| || !IsJsSpace(s[n])
    decreases |s|
  {
    if s != [] && IsJsSpace(s[0]) then 1 + LeadingSpaces(s[1..]) else 0
  }

  /** The length of `s` once its trailing white space is dropped. */
  function UntilTrailingSpaces(s: string): (n: nat)
    ensures n <= |s|
    ensures forall i :: n <= i < |s| ==> IsJsSpace(s[i])
    ensures n == 0 || !IsJsSpace(s[n - 1])
    decreases |s|
  {
    if s != [] && IsJsSpace(s[|s| - 1]) then UntilTrailingSpaces(s[..|s| - 1]) else |s|
  }

  /** `s.trim()`. */
  function Trim(s: string): (r: string)
    ensures r == [] || (!IsJsSpace(r[0]) && !IsJsSpace(r[|r| - 1]))
  {
    var t := s[LeadingSpaces(s)..];
    t[..UntilTrailingSpaces(t)]
  }

  /** Trimming keeps a contiguous slice of the input and drops only white
      space around it. */
  lemma TrimSlice(s: string) returns (a: nat, b: nat)
    ensures a <= b <= |s| && Trim(s) == s[a..b]
    ensures forall i :: 0 <= i < a ==> IsJsSpace(s[i])
    ensures forall i :: b <= i < |s| ==> IsJsSpace(s[i])
  {
    a := LeadingSpaces(s);
    var t := s[a..];
    b := a + UntilTrailingSpaces(t);
    forall i | b <= i < |s| ensures IsJsSpace(s[i]) {
      assert s[i] == t[i - a];
    }
  }

  /** `s.toLowerCase()` on ASCII letters. */
  function AsciiLower(s: string): (r: string)
    ensures |r| == |s|
    ensures forall i :: 0 <= i < |s| ==>
      r[i] == (if 'A' <= s[i] <= 'Z' then (s[i] as int + 32) as char else s[i])
  {
    seq(|s|, i requires 0 <= i < |s| =>
      if 'A' <= s[i] <= 'Z' then (s[i] as int + 32) as char else s[i])
  }

  /** `s.replace(/\/+$/, '')`: every trailing `/` removed. */
  function StripTrailingSlashes(s: string): (r: string)
    ensures r <= s
    ensures r == [] || r[|r| - 1] != '/'
    ensures forall i :: |r| <= i < |s| ==> s[i] == '/'
    decreases |s|
  {
    if s != [] && s[|s| - 1] == '/' then StripTrailingSlashes(s[..|s| - 1]) else s
  }

  /** Stripping trailing slashes a second time changes nothing. */
  lemma StripTrailingSlashesIdempotent(s: string)
    ensures StripTrailingSlashes(StripTrailingSlashes(s)) == StripTrailingSlashes(s)
  {
  }

  /** POSIX `path.basename(p)`: ignore trailing `/`, then take the text
      after the last remaining `/`. */
  function Basename(p: string): string {
    var fields := Split(StripTrailingSlashes(p), '/');
    fields[|fields| - 1]
  }

  /** The base name holds no `/`, ends the path once trailing slashes are
      removed, and is either that whole text or preceded by a `/`. */
  lemma BasenameShape(p: string)
    ensures '/' !in Basename(p)
    ensures |Basename(p)| <= |StripTrailingSlashes(p)|
    ensures StripTrailingSlashes(p)[|StripTrailingSlashes(p)| - |Basename(p)|..] == Basename(p)
    ensures |Basename(p)| == |StripTrailingSlashes(p)|
            || StripTrailingSlashes(p)[|StripTrailingSlashes(p)| - |Basename(p)| - 1] == '/'
  {
    var q := StripTrailingSlashes(p);
    SplitJoin(q, '/');
    BeforeLastField(q, '/');
    var fields := Split(q, '/');
    var n := |fields|;
    if n > 1 {
      var before := Join(fields[..n - 1], "/");
      assert fields[..n - 1][..n - 2] == fields[..n - 2];
      assert q == before + ['/'] + fields[n - 1];
    }
  }

  /** `[...new Set(xs)]`: the distinct elements in order of first occurrence. */
  function Dedup<T(==)>(xs: seq<T>): seq<T>
    decreases |xs|
  {
    if xs == [] then []
    else
      var kept := Dedup(xs[..|xs| - 1]);
      if xs[|xs| - 1] in kept then kept else kept + [xs[|xs| - 1]]
  }

  /** Index of the first occurrence of `x` in `xs`. */
  function FirstIndex<T(==)>(xs: seq<T>, x: T): (k: nat)
    requires x in xs
    ensures k < |xs| && xs[k] == x && x !in xs[..k]
  {
    if xs[0] == x then 0 else 1 + FirstIndex(xs[1..], x)
  }

  lemma FirstIndexUnique<T>(xs: seq<T>, x: T, k: nat)
    requires k < |xs| && xs[k] == x && x !in xs[..k]
    ensures FirstIndex(xs, x) == k
  {
  }

  /** De-duplication keeps exactly the elements of the input, once each, in
      the order of their first occurrences. */
  lemma {:induction false} DedupSpec<T>(xs: seq<T>)
    ensures forall x :: x in Dedup(xs) <==> x in xs
    ensures NoDups(Dedup(xs))
    ensures forall i, j :: 0 <= i < j < |Dedup(xs)| ==>
      FirstIndex(xs, Dedup(xs)[i]) < FirstIndex(xs, Dedup(xs)[j])
    decreases |xs|
  {
    if xs != [] {
      var init, last := xs[..|xs| - 1], xs[|xs| - 1];
      DedupSpec(init);
      var kept := Dedup(init);
      assert init + [last] == xs;
      forall y | y in init ensures FirstIndex(xs, y) == FirstIndex(init, y) {
        var k := FirstIndex(init, y);
        assert xs[..k] == init[..k];
        FirstIndexUnique(xs, y, k);
      }
      if last !in kept {
        assert xs[..|xs| - 1] == init;
        FirstIndexUnique(xs, last, |xs| - 1);
        var r := kept + [last];
        forall i, j | 0 <= i < j < |r|
          ensures FirstIndex(xs, r[i]) < FirstIndex(xs, r[j])
        {
          assert r[i] == kept[i] && kept[i] in kept;
          if j < |kept| {
            assert r[j] == kept[j];
          } else {
            assert FirstIndex(init, r[i]) < |init|;
          }
        }
      }
    }
  }

  /** Decimal digits of a non-negative number, as template literals print it. */
  function DecimalString(n: nat): (r: string)
    ensures |r| >= 1
    ensures forall i :: 0 <= i < |r| ==> '0' <= r[i] <= '9'
  {
    var d := ['0' + (n % 10) as char];
    if n < 10 then d else DecimalString(n / 10) + d
  }
}
