/**
 * `parse_int_range`: difficulty tokens such as `3`, `2-5`, `7+`, `<4` or
 * `>=8` turned into the ascending list of the difficulties they admit,
 * which must all lie between 0 and 10.
 */
module DifficultyFilter {
  import opened Wrappers
  import opened Text
  import opened Sorting
  import opened Parsing

  /** `list(range(lo, hi))`. */
  function Range(lo: int, hi: int): (r: seq<int>)
    ensures |r| == if lo < hi then hi - lo else 0
    ensures forall k :: 0 <= k < |r| ==> r[k] == lo + k
    decreases hi - lo
  {
    if lo >= hi then [] else [lo] + Range(lo + 1, hi)
  }

  lemma RangeHas(lo: int, hi: int, d: int)
    ensures d in Range(lo, hi) <==> lo <= d < hi
  {
    if lo <= d < hi {
      assert Range(lo, hi)[d - lo] == d;
    }
  }

  /** `int(s)`. */
  function IntOf(s: string): Result<int, FilterError> {
    match ParseInt(s)
    case None => Err(InvalidToken)
    case Some(n) => Ok(n)
  }

  /** `list(range(int(s) + dlo, hi))`. */
  function From(s: string, dlo: int, hi: int): Result<seq<int>, FilterError> {
    match IntOf(s)
    case Err(e) => Err(e)
    case Ok(n) => Ok(Range(n + dlo, hi))
  }

  /** `list(range(lo, int(s) + dhi))`. */
  function Upto(s: string, lo: int, dhi: int): Result<seq<int>, FilterError> {
    match IntOf(s)
    case Err(e) => Err(e)
    case Ok(n) => Ok(Range(lo, n + dhi))
  }

  /** `list(range(int(start), int(end) + 1))`. */
  function Span(start: string, end: string): Result<seq<int>, FilterError> {
    match IntOf(start)
    case Err(e) => Err(e)
    case Ok(n) => Upto(end, n, 1)
  }

  /** The inner `parse` of one token, branch by branch. */
  function ParseToken(s: string): Result<seq<int>, FilterError> {
    if StartsWith(s, "<") then
      if StartsWith(s, "<=") then Upto(s[2..], 0, 1) else Upto(s[1..], 0, 0)
    else if StartsWith(s, ">") then
      if StartsWith(s, ">=") then From(s[2..], 0, 11) else From(s[1..], 1, 11)
    else if '-' in s then
      var pieces := Split(s, '-');
      if |pieces| != 2 then Err(InvalidToken)
      else if pieces[1] != "" then Span(pieces[0], pieces[1])
      else Upto(pieces[0], 0, 0)
    else if '+' in s then From(s[..|s| - 1], 0, 11)
    else
      match IntOf(s)
      case Err(e) => Err(e)
      case Ok(n) => Ok([n])
  }

  function IntLess(a: int, b: int): bool { a < b }

  lemma IntLessStrict()
    ensures StrictTotal(IntLess)
  {
  }

  /** Every value lies between 0 and 10. */
  predicate Valid(ds: seq<int>) {
    forall k :: 0 <= k < |ds| ==> 0 <= ds[k] <= 10
  }

  /** `parse_int_range`: flatten, deduplicate, sort, then reject anything outside 0..10. */
  function ParseIntRange(tokens: seq<string>): Result<seq<int>, FilterError> {
    match ParseAll(tokens, ParseToken)
    case Err(e) => Err(e)
    case Ok(all) =>
      var ds := SortedSet(all, IntLess);
      if Valid(ds) then Ok(ds) else Err(InvalidDifficulty)
  }

  /** Some token admits `d`. */
  ghost predicate Admitted(tokens: seq<string>, d: int) {
    exists k :: 0 <= k < |tokens| && ParseToken(tokens[k]).Ok? && d in ParseToken(tokens[k]).value
  }

  /**
   * The result is the strictly ascending list of the union of the tokens'
   * ranges when every token parses and the union lies within 0..10; a token
   * that does not parse fails with its own error (the first one), and a
   * union reaching outside 0..10 fails as an invalid difficulty.
   */
  lemma ParseIntRangeFacts(tokens: seq<string>)
    ensures var r := ParseIntRange(tokens);
      && (r.Ok? ==> Ascending(r.value, IntLess) && Valid(r.value) &&
                    forall d :: d in r.value <==> Admitted(tokens, d))
      && (r == Err(InvalidDifficulty) <==>
            (forall k :: 0 <= k < |tokens| ==> ParseToken(tokens[k]).Ok?) &&
            exists d :: Admitted(tokens, d) && !(0 <= d <= 10))
      && (r == Err(InvalidToken) <==> exists k :: 0 <= k < |tokens| && ParseToken(tokens[k]).Err?)
  {
    ParseAllFacts(tokens, ParseToken);
    var all := ParseAll(tokens, ParseToken);
    if all.Ok? {
      IntLessStrict();
      SortedSetFacts(all.value, IntLess);
      var ds := SortedSet(all.value, IntLess);
      forall d ensures d in ds <==> Admitted(tokens, d) {
        if d in ds {
          var k :| 0 <= k < |tokens| && d in ParseToken(tokens[k]).value;
        }
      }
      if !Valid(ds) {
        var k :| 0 <= k < |ds| && !(0 <= ds[k] <= 10);
        assert ds[k] in ds;
      }
      if exists d :: Admitted(tokens, d) && !(0 <= d <= 10) {
        var d :| Admitted(tokens, d) && !(0 <= d <= 10);
        var k :| 0 <= k < |ds| && ds[k] == d;
      }
    } else {
      var k :| 0 <= k < |tokens| && ParseToken(tokens[k]) == Err(all.error) &&
        forall j :: 0 <= j < k ==> ParseToken(tokens[j]).Ok?;
      TokenFailure(tokens[k]);
    }
  }

  /** A single token fails only the way `int()` or the `-` unpacking fails. */
  lemma TokenFailure(s: string)
    ensures ParseToken(s).Err? ==> ParseToken(s) == Err(InvalidToken)
  {
  }

  // ------------------------------------------------------ what each token means

  /** A numeral holds no sign, comparison or range character, and reads back as its value. */
  lemma Numeral(n: nat)
    ensures ParseInt(ShowNat(n)) == Some(n)
    ensures '-' !in ShowNat(n) && '+' !in ShowNat(n)
    ensures !StartsWith(ShowNat(n), "<") && !StartsWith(ShowNat(n), ">") && ShowNat(n)[0] != '='
  {
    ParseShowNat(n);
    var t := ShowNat(n);
    forall i | 0 <= i < |t| ensures t[i] != '-' && t[i] != '+' {
      assert IsDigit(t[i]);
    }
    assert IsDigit(t[0]);
    assert !StartsWith(t, "<") by { assert t[..1][0] == t[0]; }
    assert !StartsWith(t, ">") by { assert t[..1][0] == t[0]; }
  }

  /** `<n` admits 0..n-1. */
  lemma BelowStrictToken(n: nat)
    ensures ParseToken("<" + ShowNat(n)) == Ok(Range(0, n))
  {
    Numeral(n);
    var t := ShowNat(n);
    var s := "<" + t;
    assert StartsWith(s, "<") by { assert s[..1] == "<"; }
    assert !StartsWith(s, "<=") by { assert s[1] == t[0]; }
    assert s[1..] == t;
  }

  /** `<=n` admits 0..n. */
  lemma UptoToken(n: nat)
    ensures ParseToken("<=" + ShowNat(n)) == Ok(Range(0, n + 1))
  {
    Numeral(n);
    var t := ShowNat(n);
    var s := "<=" + t;
    assert StartsWith(s, "<") by { assert s[..1] == "<"; }
    assert StartsWith(s, "<=") by { assert s[..2] == "<="; }
    assert s[2..] == t;
  }

  /** `>n` admits n+1..10. */
  lemma AboveStrictToken(n: nat)
    ensures ParseToken(">" + ShowNat(n)) == Ok(Range(n + 1, 11))
  {
    Numeral(n);
    var t := ShowNat(n);
    var s := ">" + t;
    assert !StartsWith(s, "<") by { assert s[0] == '>'; }
    assert StartsWith(s, ">") by { assert s[..1] == ">"; }
    assert !StartsWith(s, ">=") by { assert s[1] == t[0]; }
    assert s[1..] == t;
  }

  /** `>=n` admits n..10. */
  lemma FromToken(n: nat)
    ensures ParseToken(">=" + ShowNat(n)) == Ok(Range(n, 11))
  {
    Numeral(n);
    var t := ShowNat(n);
    var s := ">=" + t;
    assert !StartsWith(s, "<") by { assert s[0] == '>'; }
    assert StartsWith(s, ">") by { assert s[..1] == ">"; }
    assert StartsWith(s, ">=") by { assert s[..2] == ">="; }
    assert s[2..] == t;
  }

  /** `n-m` admits n..m. */
  lemma SpanToken(n: nat, m: nat)
    ensures ParseToken(ShowNat(n) + "-" + ShowNat(m)) == Ok(Range(n, m + 1))
  {
    Numeral(n);
    Numeral(m);
    SpanOf(ShowNat(n), ShowNat(m), n, m);
  }

  lemma SpanOf(a: string, b: string, n: int, m: int)
    requires ParseInt(a) == Some(n) && ParseInt(b) == Some(m)
    requires a != [] && b != [] && '-' !in a && '-' !in b && !StartsWith(a, "<") && !StartsWith(a, ">")
    ensures ParseToken(a + "-" + b) == Ok(Range(n, m + 1))
  {
    var s := a + "-" + b;
    assert !StartsWith(s, "<") && !StartsWith(s, ">") by { assert s[..1] == a[..1]; }
    assert '-' in s by { assert s[|a|] == '-'; }
    SplitPair(a, b, '-');
    DashToken(s, a, b);
    assert IntOf(a) == Ok(n) && IntOf(b) == Ok(m);
    assert Span(a, b) == Ok(Range(n, m + 1));
  }

  /** A token that is not a comparison and splits into two pieces at its dash, the second non-empty. */
  lemma DashToken(s: string, a: string, b: string)
    requires !StartsWith(s, "<") && !StartsWith(s, ">") && '-' in s
    requires Split(s, '-') == [a, b] && b != ""
    ensures ParseToken(s) == Span(a, b)
  {
  }

  /** `n-` admits 0..n-1: everything below n, not n itself. */
  lemma BelowToken(n: nat)
    ensures ParseToken(ShowNat(n) + "-") == Ok(Range(0, n))
  {
    Numeral(n);
    var a := ShowNat(n);
    var s := a + "-";
    assert s[..1] == a[..1];
    SplitPair(a, "", '-');
    assert a + "-" + "" == s;
    assert '-' in s by { assert s[|a|] == '-'; }
  }

  /** `n+` admits n..10. */
  lemma OnwardToken(n: nat)
    ensures ParseToken(ShowNat(n) + "+") == Ok(Range(n, 11))
  {
    Numeral(n);
    var a := ShowNat(n);
    var s := a + "+";
    assert s[..1] == a[..1];
    assert '-' !in s;
    assert s[..|s| - 1] == a;
    assert '+' in s by { assert s[|a|] == '+'; }
  }

  /** A bare `n` admits n alone. */
  lemma SingleToken(n: nat)
    ensures ParseToken(ShowNat(n)) == Ok([n])
  {
    Numeral(n);
  }

  // ------------------------------------------------------------ whole lists

  /** `str(d)`. */
  function ShowInt(d: int): string {
    if d < 0 then "-" + ShowNat(-d) else ShowNat(d)
  }

  /** Each value written as a plain `n` token. */
  function Plain(ds: seq<int>): (ts: seq<string>)
    ensures |ts| == |ds|
  {
    seq(|ds|, i requires 0 <= i < |ds| => ShowInt(ds[i]))
  }

  /** Writing the result back as plain tokens and parsing again gives the same result. */
  lemma RoundTrip(tokens: seq<string>)
    requires ParseIntRange(tokens).Ok?
    ensures ParseIntRange(Plain(ParseIntRange(tokens).value)) == ParseIntRange(tokens)
  {
    ParseIntRangeFacts(tokens);
    var ds := ParseIntRange(tokens).value;
    var ts := Plain(ds);
    forall k | 0 <= k < |ts| ensures ParseToken(ts[k]) == Ok([ds[k]]) {
      SingleToken(ds[k]);
    }
    ParseAllFacts(ts, ParseToken);
    var all := ParseAll(ts, ParseToken).value;
    forall y ensures y in all <==> y in ds {
      if y in ds {
        var k :| 0 <= k < |ds| && ds[k] == y;
        assert y in ParseToken(ts[k]).value;
      }
    }
    IntLessStrict();
    SortedSetFacts(all, IntLess);
    AscendingUnique(SortedSet(all, IntLess), ds, IntLess);
  }

  lemma RangeAscending(lo: int, hi: int)
    ensures Ascending(Range(lo, hi), IntLess)
  {
  }

  /** A list of one token: its range, when that is within 0..10. */
  lemma OneToken(t: string, xs: seq<int>)
    requires ParseToken(t) == Ok(xs) && Ascending(xs, IntLess)
    ensures ParseIntRange([t]) == if Valid(xs) then Ok(xs) else Err(InvalidDifficulty)
  {
    assert [t][1..] == [];
    assert ParseAll([t], ParseToken) == Ok(xs + []);
    assert xs + [] == xs;
    IntLessStrict();
    SortedSetOfAscending(xs, IntLess);
  }

  /** `>=n` above 10 admits nothing, so it passes with no difficulty at all. */
  lemma FromPastTenPasses(n: nat)
    requires n > 10
    ensures ParseIntRange([">=" + ShowNat(n)]) == Ok([])
  {
    FromToken(n);
    OneToken(">=" + ShowNat(n), []);
  }

  /** A bare `n` above 10 fails. */
  lemma PastTenFails(n: nat)
    requires n > 10
    ensures ParseIntRange([ShowNat(n)]) == Err(InvalidDifficulty)
  {
    SingleToken(n);
    assert !Valid([n]) by { assert [n][0] == n; }
    OneToken(ShowNat(n), [n]);
  }

  /** `<=n` above 10 reaches past 10 and fails. */
  lemma UptoPastTenFails(n: nat)
    requires n > 10
    ensures ParseIntRange(["<=" + ShowNat(n)]) == Err(InvalidDifficulty)
  {
    UptoToken(n);
    RangeAscending(0, n + 1);
    assert !Valid(Range(0, n + 1)) by { assert Range(0, n + 1)[n] == n; }
    OneToken("<=" + ShowNat(n), Range(0, n + 1));
  }

  /**
   * `n-` admits everything below n and not n itself: `2-` gives 0 and 1.
   */
  lemma BelowExcludesBound(n: nat)
    requires n <= 11
    ensures ParseIntRange([ShowNat(n) + "-"]) == Ok(Range(0, n))
    ensures n !in Range(0, n)
  {
    BelowToken(n);
    RangeAscending(0, n);
    OneToken(ShowNat(n) + "-", Range(0, n));
    RangeHas(0, n, n);
  }
}
