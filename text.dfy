/**
 * The handful of Python `str` and `list` operations the bot's logic relies on,
 * written out over `seq<char>`: `strip`, `replace`, `split(sep)`, `sep.join`,
 * `startswith`, `endswith`, `lower`, `isdecimal`, `isalpha`, `int()` and
 * `list.index`. Character classes are ASCII except `IsSpace`, which is the
 * full set `str.isspace` accepts.
 */
module Text {
  import opened Wrappers

  // ---------------------------------------------------------------- characters

  /** The characters `str.strip()` removes (CPython's `str.isspace`). */
  predicate IsSpace(c: char) {
    c == ' ' || '\t' <= c <= '\r' || '\U{1c}' <= c <= '\U{1f}' || c == '\U{85}' || c == '\U{a0}'
    || c == '\U{1680}' || '\U{2000}' <= c <= '\U{200a}' || c == '\U{2028}' || c == '\U{2029}'
    || c == '\U{202f}' || c == '\U{205f}' || c == '\U{3000}'
  }

  predicate IsDigit(c: char) { '0' <= c <= '9' }

  predicate IsLetter(c: char) { 'a' <= c <= 'z' || 'A' <= c <= 'Z' }

  function LowerChar(c: char): char {
    if 'A' <= c <= 'Z' then (c as int + 32) as char else c
  }

  // -------------------------------------------------------------- prefix tests

  /** `s.startswith(p)` */
  predicate StartsWith(s: string, p: string) {
    |p| <= |s| && s[..|p|] == p
  }

  /** `s.endswith(p)` */
  predicate EndsWith(s: string, p: string) {
    |p| <= |s| && s[|s| - |p|..] == p
  }

  // ------------------------------------------------------------ strip, replace

  function TrimStart(s: string): (r: string)
    ensures |r| <= |s| && r == s[|s| - |r|..]
    ensures r == [] || !IsSpace(r[0])
  {
    if s != [] && IsSpace(s[0]) then TrimStart(s[1..]) else s
  }

  function TrimEnd(s: string): (r: string)
    ensures |r| <= |s| && r == s[..|r|]
    ensures r == [] || !IsSpace(r[|r| - 1])
  {
    if s != [] && IsSpace(s[|s| - 1]) then TrimEnd(s[..|s| - 1]) else s
  }

  /** `s.strip()`: whitespace removed from both ends. */
  function Strip(s: string): string {
    TrimEnd(TrimStart(s))
  }

  /** `s.replace(old, new)` for one-character `old` and `new`. */
  function ReplaceChar(s: string, from: char, to: char): (r: string)
    ensures |r| == |s|
    ensures from != to ==> from !in r
  {
    seq(|s|, i requires 0 <= i < |s| => if s[i] == from then to else s[i])
  }

  // --------------------------------------------------------------- split, join

  /** Index of the first `c` in `s`, or `|s|` when there is none. */
  function Find(s: string, c: char): (k: nat)
    ensures k <= |s|
    ensures k < |s| ==> s[k] == c
  {
    if s == [] then 0 else if s[0] == c then 0 else 1 + Find(s[1..], c)
  }

  /** `s.split(sep)` with an explicit one-character separator: never empty,
      and runs of separators give empty pieces. */
  function Split(s: string, sep: char): (ws: seq<string>)
    ensures |ws| >= 1
    decreases |s|
  {
    var k := Find(s, sep);
    if k == |s| then [s] else [s[..k]] + Split(s[k + 1..], sep)
  }

  /** `sep.join(ws)` for a one-character separator. */
  function Join(ws: seq<string>, sep: char): string {
    if |ws| == 0 then "" else if |ws| == 1 then ws[0] else ws[0] + [sep] + Join(ws[1..], sep)
  }

  /** No piece of a split holds the separator. */
  lemma {:induction false} SplitPiecesFree(s: string, sep: char)
    ensures forall w <- Split(s, sep) :: sep !in w
    decreases |s|
  {
    var k := Find(s, sep);
    FindFirst(s, sep);
    if k < |s| {
      SplitPiecesFree(s[k + 1..], sep);
    }
  }

  /** `Find` stops at the first occurrence. */
  lemma {:induction false} FindFirst(s: string, c: char)
    ensures c !in s[..Find(s, c)]
  {
    if s != [] && s[0] != c {
      FindFirst(s[1..], c);
      assert s[..Find(s, c)] == [s[0]] + s[1..][..Find(s[1..], c)];
    }
  }

  lemma {:induction false} JoinSplit(s: string, sep: char)
    ensures Join(Split(s, sep), sep) == s
    decreases |s|
  {
    var k := Find(s, sep);
    if k < |s| {
      var head, tail := s[..k], s[k + 1..];
      var rest := Split(tail, sep);
      assert Split(s, sep) == [head] + rest by {
        SplitAt(s, sep);
      }
      assert Join([head] + rest, sep) == head + [sep] + Join(rest, sep) by {
        JoinCons(head, rest, sep);
      }
      JoinSplit(tail, sep);
      assert s == head + [sep] + tail;
    }
  }

  lemma SplitAt(s: string, sep: char)
    requires Find(s, sep) < |s|
    ensures Split(s, sep) == [s[..Find(s, sep)]] + Split(s[Find(s, sep) + 1..], sep)
  {
  }

  lemma JoinCons(w: string, ws: seq<string>, sep: char)
    requires |ws| >= 1
    ensures Join([w] + ws, sep) == w + [sep] + Join(ws, sep)
  {
    assert ([w] + ws)[1..] == ws;
  }

  lemma {:induction false} SplitJoin(ws: seq<string>, sep: char)
    requires |ws| >= 1
    requires forall w <- ws :: sep !in w
    ensures Split(Join(ws, sep), sep) == ws
  {
    if |ws| > 1 {
      SplitCons(ws[0], sep, Join(ws[1..], sep));
      SplitJoin(ws[1..], sep);
      assert ws == [ws[0]] + ws[1..];
    } else {
      FindAfter(ws[0], sep, []);
    }
  }

  /** Splitting a separator-free word followed by the separator peels the word off. */
  lemma SplitCons(w: string, sep: char, rest: string)
    requires sep !in w
    ensures Split(w + [sep] + rest, sep) == [w] + Split(rest, sep)
  {
    var s := w + [sep] + rest;
    FindAfter(w, sep, rest);
    assert s[..|w|] == w;
    assert s[|w| + 1..] == rest;
  }

  /** A text with exactly one separator splits into the two sides. */
  lemma SplitPair(a: string, b: string, sep: char)
    requires sep !in a && sep !in b
    ensures Split(a + [sep] + b, sep) == [a, b]
  {
    SplitCons(a, sep, b);
    assert Find(b, sep) == |b|;
  }

  lemma {:induction false} FindAfter(w: string, sep: char, rest: string)
    requires sep !in w
    ensures Find(w + [sep] + rest, sep) == |w|
    ensures Find(w, sep) == |w|
  {
    if w != [] {
      assert (w + [sep] + rest)[1..] == w[1..] + [sep] + rest;
      FindAfter(w[1..], sep, rest);
    }
  }

  /** Joining one more word appends the separator and the word. */
  lemma {:induction false} JoinSnoc(ws: seq<string>, w: string, sep: char)
    requires |ws| >= 1
    ensures Join(ws + [w], sep) == Join(ws, sep) + [sep] + w
  {
    if |ws| > 1 {
      assert (ws + [w])[1..] == ws[1..] + [w];
      JoinSnoc(ws[1..], w, sep);
    }
  }

  /** A joined text ends with a separator-free suffix exactly when its last word does. */
  lemma JoinEndsWith(ws: seq<string>, sep: char, p: string)
    requires |ws| >= 1
    requires sep !in p
    ensures EndsWith(Join(ws, sep), p) <==> EndsWith(ws[|ws| - 1], p)
  {
    var last := ws[|ws| - 1];
    if |ws| > 1 {
      var init := ws[..|ws| - 1];
      assert ws == init + [last];
      JoinSnoc(init, last, sep);
      var s := Join(ws, sep);
      assert s == Join(init, sep) + [sep] + last;
      if |p| <= |last| {
        assert s[|s| - |p|..] == last[|last| - |p|..];
      } else if |p| <= |s| {
        assert s[|s| - |last| - 1] == sep;
        assert s[|s| - |p|..][|p| - |last| - 1] == sep;
      }
    }
  }

  /** A character other than the separator occurs in a joined text iff it occurs in a word. */
  lemma {:induction false} JoinHasChar(ws: seq<string>, sep: char, c: char)
    requires c != sep
    ensures c in Join(ws, sep) <==> exists w <- ws :: c in w
  {
    if |ws| > 1 {
      JoinHasChar(ws[1..], sep, c);
      var s := Join(ws, sep);
      assert s == ws[0] + [sep] + Join(ws[1..], sep);
      if c in s {
        var i :| 0 <= i < |s| && s[i] == c;
        if i < |ws[0]| { assert ws[0][i] == c; }
        else { assert Join(ws[1..], sep)[i - |ws[0]| - 1] == c; }
      }
      if exists w <- ws :: c in w {
        var w :| w in ws && c in w;
        if w == ws[0] {
          var i :| 0 <= i < |w| && w[i] == c;
          assert s[i] == c;
        } else {
          assert w in ws[1..];
          var t := Join(ws[1..], sep);
          var i :| 0 <= i < |t| && t[i] == c;
          assert s[|ws[0]| + 1 + i] == c;
        }
      }
    }
  }

  /** `ws.index(w)` when `w in ws`, and `|ws|` otherwise. */
  function IndexOf(ws: seq<string>, w: string): (k: nat)
    ensures k <= |ws|
    ensures k < |ws| <==> w in ws
    ensures k < |ws| ==> ws[k] == w
  {
    if ws == [] then 0 else if ws[0] == w then 0 else 1 + IndexOf(ws[1..], w)
  }

  /** No `w` comes before `ws.index(w)`. */
  lemma {:induction false} IndexOfNoEarlier(ws: seq<string>, w: string)
    ensures forall j :: 0 <= j < IndexOf(ws, w) ==> ws[j] != w
  {
    if ws != [] && ws[0] != w {
      IndexOfNoEarlier(ws[1..], w);
      forall j | 0 < j < IndexOf(ws, w) ensures ws[j] != w {
        assert ws[j] == ws[1..][j - 1];
      }
    }
  }

  /** `ws.index(w)` is at or before every position holding `w`. */
  lemma {:induction false} IndexOfFirst(ws: seq<string>, w: string, j: nat)
    requires j < |ws| && ws[j] == w
    ensures IndexOf(ws, w) <= j
  {
    if ws[0] != w {
      IndexOfFirst(ws[1..], w, j - 1);
    }
  }

  /** The position of the first `w` is what `ws.index(w)` returns. */
  lemma {:induction false} IndexOfAt(ws: seq<string>, w: string, p: nat)
    requires p < |ws| && ws[p] == w
    requires forall j :: 0 <= j < p ==> ws[j] != w
    ensures IndexOf(ws, w) == p
  {
    if p > 0 {
      IndexOfAt(ws[1..], w, p - 1);
    }
  }

  // ----------------------------------------------------------- case and spaces

  /** `s.lower()` (ASCII letters only). */
  function Lower(s: string): (r: string)
    ensures |r| == |s|
  {
    seq(|s|, i requires 0 <= i < |s| => LowerChar(s[i]))
  }

  /** `s.lower().replace(" ", "")`: the key under which names are compared. */
  function Fold(s: string): (r: string)
    ensures ' ' !in r
  {
    if s == [] then [] else Fold(s[..|s| - 1]) + (if s[|s| - 1] == ' ' then [] else [LowerChar(s[|s| - 1])])
  }

  /** Folding distributes over concatenation. */
  lemma {:induction false} FoldAppend(a: string, b: string)
    ensures Fold(a + b) == Fold(a) + Fold(b)
    decreases |b|
  {
    if b == [] {
      assert a + b == a;
    } else {
      assert (a + b)[..|a + b| - 1] == a + b[..|b| - 1];
      FoldAppend(a, b[..|b| - 1]);
    }
  }

  /** Folding a word with no space in it only lower-cases it. */
  lemma {:induction false} FoldWord(w: string)
    requires ' ' !in w
    ensures Fold(w) == Lower(w)
    decreases |w|
  {
    if w != [] {
      FoldWord(w[..|w| - 1]);
      assert Lower(w) == Lower(w[..|w| - 1]) + [LowerChar(w[|w| - 1])];
    }
  }

  /** Folding a phrase whose last word has no space in it. */
  lemma FoldSpace(a: string, b: string)
    requires ' ' !in b
    ensures Fold(a + " " + b) == Fold(a) + Lower(b)
  {
    FoldAppend(a + " ", b);
    FoldAppend(a, " ");
    FoldWord(b);
  }

  /** Folding a name whose last space is at index `j`. */
  lemma FoldLast(x: string, j: nat)
    requires j < |x| && x[j] == ' ' && ' ' !in x[j + 1..]
    ensures Fold(x) == Fold(x[..j]) + Lower(x[j + 1..])
  {
    assert x == x[..j] + " " + x[j + 1..];
    FoldSpace(x[..j], x[j + 1..]);
  }

  /** Folding a two-word name whose space is at index `i`. */
  lemma FoldPair(x: string, i: nat)
    requires i < |x| && x[i] == ' ' && ' ' !in x[..i] && ' ' !in x[i + 1..]
    ensures Fold(x) == Lower(x[..i]) + Lower(x[i + 1..])
  {
    FoldLast(x, i);
    FoldWord(x[..i]);
  }

  /** Folding a three-word name whose spaces are at indices `i` and `j`. */
  lemma FoldTriple(x: string, i: nat, j: nat)
    requires i < j < |x| && x[i] == ' ' && x[j] == ' '
    requires ' ' !in x[..i] && ' ' !in x[i + 1..j] && ' ' !in x[j + 1..]
    ensures Fold(x) == Lower(x[..i]) + Lower(x[i + 1..j]) + Lower(x[j + 1..])
  {
    var y := x[..j];
    assert Fold(x) == Fold(y) + Lower(x[j + 1..]) by {
      FoldLast(x, j);
    }
    assert Fold(y) == Lower(x[..i]) + Lower(x[i + 1..j]) by {
      assert y[..i] == x[..i] && y[i + 1..] == x[i + 1..j];
      FoldPair(y, i);
    }
  }

  /** `any(ch.isdecimal() for ch in s)` (ASCII digits). */
  predicate HasDigit(s: string) {
    exists i :: 0 <= i < |s| && IsDigit(s[i])
  }

  /** `s.isalpha()` (ASCII letters): false on the empty string. */
  predicate IsAlpha(s: string) {
    |s| > 0 && forall i :: 0 <= i < |s| ==> IsLetter(s[i])
  }

  /** A word of letters holds no digit. */
  lemma AlphaNoDigit(s: string)
    requires IsAlpha(s)
    ensures !HasDigit(s)
  {
    forall i | 0 <= i < |s| ensures !IsDigit(s[i]) {
      assert IsLetter(s[i]);
    }
  }

  // -------------------------------------------------------------- comparison

  /** `a < b` on Python strings: lexicographic by code point, a proper prefix first. */
  predicate CodeLess(a: string, b: string)
    decreases |a|
  {
    if a == [] then b != []
    else if b == [] then false
    else if a[0] != b[0] then a[0] < b[0]
    else CodeLess(a[1..], b[1..])
  }

  lemma {:induction false} CodeLessIrreflexive(a: string)
    ensures !CodeLess(a, a)
    decreases |a|
  {
    if a != [] {
      CodeLessIrreflexive(a[1..]);
    }
  }

  lemma {:induction false} CodeLessTransitive(a: string, b: string, c: string)
    requires CodeLess(a, b) && CodeLess(b, c)
    ensures CodeLess(a, c)
    decreases |a|
  {
    if a != [] && a[0] == b[0] && b[0] == c[0] {
      CodeLessTransitive(a[1..], b[1..], c[1..]);
    }
  }

  lemma {:induction false} CodeLessTotal(a: string, b: string)
    requires a != b
    ensures CodeLess(a, b) || CodeLess(b, a)
    decreases |a|
  {
    if a != [] && b != [] && a[0] == b[0] {
      assert a == [a[0]] + a[1..] && b == [b[0]] + b[1..];
      CodeLessTotal(a[1..], b[1..]);
    }
  }

  // ------------------------------------------------------------------- int()

  /** Digits, with single underscores allowed between two digits. */
  predicate DigitRun(s: string) {
    && |s| > 0 && IsDigit(s[0]) && IsDigit(s[|s| - 1])
    && (forall i :: 0 <= i < |s| ==> IsDigit(s[i]) || s[i] == '_')
    && (forall i :: 0 <= i < |s| - 1 ==> !(s[i] == '_' && s[i + 1] == '_'))
  }

  function DigitsValue(s: string): nat {
    if s == [] then 0
    else if IsDigit(s[|s| - 1]) then 10 * DigitsValue(s[..|s| - 1]) + (s[|s| - 1] as int - '0' as int)
    else DigitsValue(s[..|s| - 1])
  }

  /** `int(s)`: surrounding whitespace, an optional sign, then a digit run;
      `None` where Python raises `ValueError`. */
  function ParseInt(s: string): Option<int> {
    var t := Strip(s);
    if |t| > 0 && (t[0] == '+' || t[0] == '-') then
      if DigitRun(t[1..]) then
        var v: int := DigitsValue(t[1..]);
        Some(if t[0] == '-' then -v else v)
      else None
    else if DigitRun(t) then Some(DigitsValue(t))
    else None
  }

  /** `str(n)` for a natural number. */
  function ShowNat(n: nat): (r: string)
    ensures |r| >= 1
    ensures forall i :: 0 <= i < |r| ==> IsDigit(r[i])
  {
    var d := ['0' + (n % 10) as char];
    if n < 10 then d else ShowNat(n / 10) + d
  }

  lemma {:induction false} ShowNatValue(n: nat)
    ensures DigitsValue(ShowNat(n)) == n
  {
    var s := ShowNat(n);
    if n >= 10 {
      ShowNatValue(n / 10);
      assert s[..|s| - 1] == ShowNat(n / 10);
    }
  }

  lemma ShowNatIsDigitRun(n: nat)
    ensures DigitRun(ShowNat(n))
  {
  }

  /** Stripping a text that starts and ends with a non-space changes nothing. */
  lemma StripTight(s: string)
    requires s != [] && !IsSpace(s[0]) && !IsSpace(s[|s| - 1])
    ensures Strip(s) == s
  {
    assert TrimStart(s) == s;
  }

  /** `int(str(n)) == n`. */
  lemma ParseShowNat(n: nat)
    ensures ParseInt(ShowNat(n)) == Some(n)
  {
    var s := ShowNat(n);
    StripTight(s);
    ShowNatIsDigitRun(n);
    ShowNatValue(n);
  }
}
