/**
 * `parse_subcats`: category words are first merged greedily into alias
 * phrases ("us", "hist" becomes "us hist"), then each phrase is resolved,
 * ignoring case and spaces, against the alias table; the subcategories are
 * returned sorted and without duplicates.
 */
module CategoryFilter {
  import opened Wrappers
  import opened Text
  import opened Tables
  import opened Sorting
  import opened Parsing

  // ------------------------------------------------------------------ merging

  /** The phrase `cat` absorbs the following words while the space-joined phrase is one of `aliases`. */
  function Absorb(cat: string, rest: seq<string>, aliases: seq<string>): (r: (string, seq<string>))
    ensures |r.1| <= |rest| && r.1 == rest[|rest| - |r.1|..]
    decreases |rest|
  {
    if rest != [] && cat + " " + rest[0] in aliases then Absorb(cat + " " + rest[0], rest[1..], aliases)
    else (cat, rest)
  }

  /** The merged list the first loop of `parse_subcats` leaves behind, for the alias list `aliases`. */
  function Merge(words: seq<string>, aliases: seq<string>): (r: seq<string>)
    ensures |r| <= |words| && (|r| == 0 <==> |words| == 0)
    decreases |words|
  {
    if words == [] then []
    else
      var (cat, rest) := Absorb(words[0], words[1..], aliases);
      [cat] + Merge(rest, aliases)
  }

  /** The merging loop: each word absorbs its successors, which are popped from the list. */
  method MergeAliases(words: seq<string>, aliases: seq<string>) returns (subcats: seq<string>)
    ensures subcats == Merge(words, aliases)
  {
    subcats := words;
    var index := 0;
    assert subcats[..index] + Merge(subcats[index..], aliases) == Merge(words, aliases) by {
      assert subcats[index..] == words;
    }
    while index < |subcats|
      invariant index <= |subcats|
      invariant subcats[..index] + Merge(subcats[index..], aliases) == Merge(words, aliases)
      decreases |subcats| - index
    {
      ghost var done := subcats[..index];
      ghost var goal := Absorb(subcats[index], subcats[index + 1..], aliases);
      MergeStep(subcats[index..], aliases);
      assert subcats[index..][0] == subcats[index] && subcats[index..][1..] == subcats[index + 1..];
      assert done + ([goal.0] + Merge(goal.1, aliases)) == Merge(words, aliases);
      var cat;
      cat, subcats := AbsorbFollowing(subcats, index, aliases);
      subcats := Settle(subcats, index, cat);
      assert subcats[..index + 1] == done + [cat] && subcats[index + 1..] == goal.1;
      AppendAssoc(done, [cat], Merge(goal.1, aliases));
      index := index + 1;
    }
  }

  /** The inner `while`: the word at `index` absorbs the words after it, popping each one. */
  method AbsorbFollowing(words: seq<string>, index: nat, aliases: seq<string>) returns (cat: string, subcats: seq<string>)
    requires index < |words|
    ensures index < |subcats| && subcats[..index] == words[..index]
    ensures (cat, subcats[index + 1..]) == Absorb(words[index], words[index + 1..], aliases)
  {
    subcats := words;
    cat := subcats[index];
    while index + 1 < |subcats| && cat + " " + subcats[index + 1] in aliases
      invariant index < |subcats| && subcats[..index] == words[..index]
      invariant Absorb(cat, subcats[index + 1..], aliases) == Absorb(words[index], words[index + 1..], aliases)
      decreases |subcats|
    {
      cat := cat + " " + subcats[index + 1];
      subcats := Pop(subcats, index);
    }
  }

  /** Stated apart so that the merging loop's proof does not reason about sequence equality itself. */
  lemma AppendAssoc(a: seq<string>, b: seq<string>, c: seq<string>)
    ensures (a + b) + c == a + (b + c)
  {
  }

  /** Merging a non-empty list: the first word's phrase, then the merge of what it left. */
  lemma MergeStep(ws: seq<string>, aliases: seq<string>)
    requires |ws| > 0
    ensures Merge(ws, aliases) == [Absorb(ws[0], ws[1..], aliases).0] + Merge(Absorb(ws[0], ws[1..], aliases).1, aliases)
  {
  }

  /** `subcats.pop(index + 1)`. */
  function Pop(s: seq<string>, index: nat): (r: seq<string>)
    requires index + 1 < |s|
    ensures |r| == |s| - 1 && r[..index] == s[..index] && r[index] == s[index] && r[index + 1..] == s[index + 2..]
  {
    s[..index + 1] + s[index + 2..]
  }

  /** `subcats[index] = cat`. */
  function Settle(s: seq<string>, index: nat, cat: string): (r: seq<string>)
    requires index < |s|
    ensures |r| == |s| && r[..index + 1] == s[..index] + [cat] && r[index + 1..] == s[index + 1..]
  {
    s[index := cat]
  }

  /** Gluing the first two words with the separator does not change the joined text. */
  lemma JoinGlue(w: string, x: string, tail: seq<string>, sep: char)
    ensures Join([w + [sep] + x] + tail, sep) == Join([w] + ([x] + tail), sep)
  {
    JoinCons(w, [x] + tail, sep);
    if tail == [] {
      assert [x] + tail == [x];
      assert [w + [sep] + x] + tail == [w + [sep] + x];
    } else {
      JoinCons(x, tail, sep);
      JoinCons(w + [sep] + x, tail, sep);
      assert (w + [sep] + x) + [sep] + Join(tail, sep) == w + [sep] + (x + [sep] + Join(tail, sep));
    }
  }

  /** Absorbing keeps the space-joined text: the phrase is the words it swallowed, joined by spaces. */
  lemma {:induction false} AbsorbJoin(cat: string, rest: seq<string>, aliases: seq<string>)
    ensures var r := Absorb(cat, rest, aliases); Join([r.0] + r.1, ' ') == Join([cat] + rest, ' ')
    decreases |rest|
  {
    if rest != [] && cat + " " + rest[0] in aliases {
      AbsorbJoin(cat + " " + rest[0], rest[1..], aliases);
      JoinGlue(cat, rest[0], rest[1..], ' ');
      assert [rest[0]] + rest[1..] == rest;
    }
  }

  /** Merging keeps the space-joined text: no word is lost, added or reordered. */
  lemma {:induction false} MergeJoin(words: seq<string>, aliases: seq<string>)
    ensures Join(Merge(words, aliases), ' ') == Join(words, ' ')
    decreases |words|
  {
    if words != [] {
      var r := Absorb(words[0], words[1..], aliases);
      AbsorbJoin(words[0], words[1..], aliases);
      assert [words[0]] + words[1..] == words;
      MergeJoin(r.1, aliases);
      if r.1 != [] {
        JoinCons(r.0, Merge(r.1, aliases), ' ');
        JoinCons(r.0, r.1, ' ');
      } else {
        assert [r.0] + r.1 == [r.0];
      }
    }
  }

  /** Every merged token is an original word or one of the aliases. */
  lemma {:induction false} MergeTokens(words: seq<string>, aliases: seq<string>)
    ensures forall t <- Merge(words, aliases) :: t in words || t in aliases
    decreases |words|
  {
    if words != [] {
      var r := Absorb(words[0], words[1..], aliases);
      AbsorbPhrase(words[0], words[1..], aliases);
      MergeTokens(r.1, aliases);
      SuffixMembers(words, |words| - |r.1|);
      assert Merge(words, aliases) == [r.0] + Merge(r.1, aliases);
    }
  }

  lemma SuffixMembers(ws: seq<string>, k: nat)
    requires 1 <= k <= |ws|
    ensures forall t <- ws[k..] :: t in ws
  {
    forall t <- ws[k..] ensures t in ws {
      var j :| 0 <= j < |ws[k..]| && ws[k..][j] == t;
      assert ws[k + j] == t;
    }
  }

  /** The phrase is the word itself, or an alias. */
  lemma {:induction false} AbsorbPhrase(cat: string, rest: seq<string>, aliases: seq<string>)
    ensures Absorb(cat, rest, aliases).0 == cat || Absorb(cat, rest, aliases).0 in aliases
    decreases |rest|
  {
    if rest != [] && cat + " " + rest[0] in aliases {
      AbsorbPhrase(cat + " " + rest[0], rest[1..], aliases);
    }
  }

  // --------------------------------------------------------------- resolution

  /** `s` names the entry's key or one of its aliases, ignoring case and spaces. */
  predicate Matches(s: string, entry: (string, seq<string>)) {
    Fold(s) == Fold(entry.0) || exists a <- entry.1 :: Fold(s) == Fold(a)
  }

  /** The index of the first entry `s` matches, or `|entries|` when there is none. */
  function Lookup(s: string, entries: seq<(string, seq<string>)>): (k: nat)
    ensures k <= |entries|
    ensures k < |entries| ==> Matches(s, entries[k])
    ensures forall j :: 0 <= j < k ==> !Matches(s, entries[j])
  {
    if entries == [] then 0
    else if Matches(s, entries[0]) then 0
    else 1 + Lookup(s, entries[1..])
  }

  /** A subcategory: a member of some category's subcategory list. */
  ghost predicate IsSubcategory(t: string) {
    exists c :: c in Categories && c in Subcategories && t in Subcategories[c]
  }

  /** The inner `parse` of `parse_subcats`: a merged token becomes a list of subcategories. */
  function Resolve(s: string): (r: Result<seq<string>, FilterError>)
    ensures r.Err? <==> forall k :: 0 <= k < |Aliases| ==> !Matches(s, Aliases[k])
    ensures r.Err? ==> r.error == InvalidCategory(s)
    ensures r.Ok? ==> |r.value| > 0 && forall t <- r.value :: IsSubcategory(t)
  {
    var k := Lookup(s, Aliases);
    if k == |Aliases| then Err(InvalidCategory(s))
    else
      var key := Aliases[k].0;
      CategoriesTable();
      if key in Categories then
        Ok(Subcategories[key])
      else
        AliasKeysValid();
        Ok([key])
  }

  // ------------------------------------------------------------------- output

  /** Python's string order is a strict total order, so `sorted(set(...))` applies. */
  lemma CodeOrder()
    ensures StrictTotal(CodeLess)
  {
    forall a: string ensures !CodeLess(a, a) {
      CodeLessIrreflexive(a);
    }
    forall a: string, b: string, c: string | CodeLess(a, b) && CodeLess(b, c) ensures CodeLess(a, c) {
      CodeLessTransitive(a, b, c);
    }
    forall a: string, b: string | a != b ensures CodeLess(a, b) || CodeLess(b, a) {
      CodeLessTotal(a, b);
    }
  }

  /** `sorted(set(sum(map(parse, tokens), [])))` for string lists. */
  function Collect(tokens: seq<string>, parse: string -> Result<seq<string>, FilterError>): Result<seq<string>, FilterError> {
    match ParseAll(tokens, parse)
    case Err(e) => Err(e)
    case Ok(xs) => Ok(SortedSet(xs, CodeLess))
  }

  /**
   * For a parse that never yields an empty list: the collection succeeds iff
   * every token parses; the output is then ascending and duplicate-free,
   * non-empty exactly when there were tokens, and holds exactly what the
   * tokens parse to. Otherwise the error is that of the first failing token.
   */
  lemma CollectFacts(tokens: seq<string>, parse: string -> Result<seq<string>, FilterError>)
    requires forall s :: parse(s).Ok? ==> |parse(s).value| > 0
    ensures Collect(tokens, parse).Ok? <==> forall k :: 0 <= k < |tokens| ==> parse(tokens[k]).Ok?
    ensures Collect(tokens, parse).Ok? ==> Ascending(Collect(tokens, parse).value, CodeLess)
    ensures Collect(tokens, parse).Ok? ==> (|Collect(tokens, parse).value| == 0 <==> |tokens| == 0)
    ensures Collect(tokens, parse).Ok? ==>
      forall t :: t in Collect(tokens, parse).value <==> exists k :: 0 <= k < |tokens| && t in parse(tokens[k]).value
    ensures Collect(tokens, parse).Err? ==>
      exists k :: 0 <= k < |tokens| && parse(tokens[k]) == Err(Collect(tokens, parse).error) &&
        forall j :: 0 <= j < k ==> parse(tokens[j]).Ok?
  {
    ParseAllFacts(tokens, parse);
    CodeOrder();
    var p := ParseAll(tokens, parse);
    if p.Ok? {
      SortedSetFacts(p.value, CodeLess);
      if |tokens| > 0 {
        assert parse(tokens[0]).value[0] in p.value;
      }
    }
  }

  /** `sorted(set(sum(map(parse, subcats), [])))` over the merged tokens. */
  function Resolved(tokens: seq<string>): Result<seq<string>, FilterError> {
    Collect(tokens, Resolve)
  }
  /** `parse_subcats(words)`, with `ALL_ALIASES` as the merge table. */
  function Subcats(words: seq<string>): Result<seq<string>, FilterError> {
    Resolved(Merge(words, AllAliases()))
  }

  /** `parse_subcats`: the merging loop, then the resolution of each merged token. */
  method ParseSubcats(words: seq<string>) returns (r: Result<seq<string>, FilterError>)
    ensures r == Subcats(words)
  {
    var merged := MergeAliases(words, AllAliases());
    r := Resolved(merged);
  }

  /**
   * Resolution succeeds iff every token names some entry; the output is then
   * ascending and duplicate-free, non-empty exactly when there were tokens,
   * and holds exactly what the tokens resolve to. Otherwise the error names
   * the first token that names no entry.
   */
  lemma ResolvedFacts(tokens: seq<string>)
    ensures Resolved(tokens).Ok? <==> forall k :: 0 <= k < |tokens| ==> Resolve(tokens[k]).Ok?
    ensures Resolved(tokens).Ok? ==> Ascending(Resolved(tokens).value, CodeLess)
    ensures Resolved(tokens).Ok? ==> (|Resolved(tokens).value| == 0 <==> |tokens| == 0)
    ensures Resolved(tokens).Ok? ==>
      forall t :: t in Resolved(tokens).value <==> exists k :: 0 <= k < |tokens| && t in Resolve(tokens[k]).value
    ensures Resolved(tokens).Err? ==>
      exists k :: 0 <= k < |tokens| && Resolve(tokens[k]).Err? && Resolved(tokens).error == InvalidCategory(tokens[k]) &&
        forall j :: 0 <= j < k ==> Resolve(tokens[j]).Ok?
  {
    CollectFacts(tokens, Resolve);
  }

  /** Every element of a resolved list is a subcategory. */
  lemma ResolvedSubcategories(tokens: seq<string>)
    ensures Resolved(tokens).Ok? ==> forall t <- Resolved(tokens).value :: IsSubcategory(t)
  {
    CollectFacts(tokens, Resolve);
    var r := Resolved(tokens);
    if r.Ok? {
      forall t <- r.value ensures IsSubcategory(t) {
        var k :| 0 <= k < |tokens| && t in Resolve(tokens[k]).value;
      }
    }
  }
}
