/**
 * The category tables the filter parser resolves words against: the
 * twelve categories, the subcategories of each, the aliases of every
 * category and subcategory (in the order the table lists them), and the
 * flat list of all aliases.
 */
module Tables {
  const Categories: seq<string> := [
    "Literature", "History", "Science", "Fine Arts", "Religion", "Mythology",
    "Philosophy", "Social Science", "Current Events", "Geography", "Other Academic", "Trash"
  ]

  const Subcategories: map<string, seq<string>> := map[
    "Literature" := ["American Literature", "British Literature", "Classical Literature",
                     "European Literature", "World Literature", "Other Literature"],
    "History" := ["American History", "Ancient History", "European History", "World History", "Other History"],
    "Science" := ["Biology", "Chemistry", "Physics", "Math", "Other Science"],
    "Fine Arts" := ["Visual Fine Arts", "Auditory Fine Arts", "Other Fine Arts"],
    "Religion" := ["Religion"],
    "Mythology" := ["Mythology"],
    "Philosophy" := ["Philosophy"],
    "Social Science" := ["Social Science"],
    "Current Events" := ["Current Events"],
    "Geography" := ["Geography"],
    "Other Academic" := ["Other Academic"],
    "Trash" := ["Trash"]
  ]

  /** The alias table as (name, aliases) entries, in the order the lookup tries them. */
  const Aliases: seq<(string, seq<string>)> := [
    ("Literature", ["l", "lit"]),
    ("American Literature", ["am lit", "us lit", "ameri lit", "american lit"]),
    ("British Literature", ["brit lit", "british lit"]),
    ("Classical Literature", ["classic", "classics", "classical lit"]),
    ("European Literature", ["euro lit", "european lit"]),
    ("World Literature", ["world lit"]),
    ("Other Literature", ["other lit"]),
    ("History", ["h", "hist"]),
    ("American History", ["am hist", "us hist", "ameri hist", "american hist"]),
    ("Ancient History", ["ancient hist"]),
    ("European History", ["euro hist", "european hist"]),
    ("World History", ["world hist"]),
    ("Other History", ["other hist"]),
    ("Science", ["sci"]),
    ("Biology", ["bio"]),
    ("Chemistry", ["chem"]),
    ("Physics", ["phys"]),
    ("Math", ["math"]),
    ("Other Science", ["other sci"]),
    ("Fine Arts", ["fa", "arts", "fine art"]),
    ("Visual Fine Arts", ["vfa", "vis fa", "vis arts", "vis fine art"]),
    ("Auditory Fine Arts", ["afa", "audio fa", "audio arts", "audio fine art"]),
    ("Other Fine Arts", ["other fa", "other arts", "other fine art"]),
    ("Religion", ["r", "rel"]),
    ("Mythology", ["m", "myth"]),
    ("Philosophy", ["p", "phil"]),
    ("Social Science", ["ss", "soc sci"]),
    ("Current Events", ["ce", "curr events"]),
    ("Geography", ["g", "geo"]),
    ("Other Academic", ["o", "other academic"]),
    ("Trash", ["t", "trash"])
  ]

  /** The concatenation of a list of lists. */
  function Flatten(ls: seq<seq<string>>): (r: seq<string>)
    ensures |r| == Lengths(ls)
  {
    if ls == [] then [] else ls[0] + Flatten(ls[1..])
  }

  function Lengths(ls: seq<seq<string>>): nat {
    if ls == [] then 0 else |ls[0]| + Lengths(ls[1..])
  }

  /** Every alias, in table order. */
  function AllAliases(): seq<string> {
    Flatten(seq(|Aliases|, i requires 0 <= i < |Aliases| => Aliases[i].1))
  }

  /** The concatenation keeps every member of every list, and nothing else. */
  lemma {:induction false} FlattenHas(ls: seq<seq<string>>, a: string)
    ensures a in Flatten(ls) <==> exists k :: 0 <= k < |ls| && a in ls[k]
  {
    if ls != [] {
      FlattenHas(ls[1..], a);
      if a in Flatten(ls) && a !in ls[0] {
        var k :| 0 <= k < |ls[1..]| && a in ls[1..][k];
        assert a in ls[k + 1];
      }
      if exists k :: 0 <= k < |ls| && a in ls[k] {
        var k :| 0 <= k < |ls| && a in ls[k];
        if k > 0 {
          assert a in ls[1..][k - 1];
        }
      }
    }
  }

  /** The alias list is made of exactly the aliases of the table's entries. */
  lemma AllAliasesMembers(a: string)
    ensures a in AllAliases() <==> exists k :: 0 <= k < |Aliases| && a in Aliases[k].1
  {
    var ls := seq(|Aliases|, i requires 0 <= i < |Aliases| => Aliases[i].1);
    FlattenHas(ls, a);
    if a in AllAliases() {
      var k :| 0 <= k < |ls| && a in ls[k];
      assert a in Aliases[k].1;
    }
    if exists k :: 0 <= k < |Aliases| && a in Aliases[k].1 {
      var k :| 0 <= k < |Aliases| && a in Aliases[k].1;
      assert a in ls[k];
    }
  }

  /** Every category is a key of the subcategory table and vice versa, and no category has an empty list. */
  lemma CategoriesTable()
    ensures forall c :: c in Subcategories <==> c in Categories
    ensures forall c :: c in Subcategories ==> |Subcategories[c]| > 0
  {
  }

  /** Religion through Trash are their own single subcategory. */
  lemma SingleSubcategories()
    ensures forall k :: 4 <= k < |Categories| ==> Subcategories[Categories[k]] == [Categories[k]]
  {
  }

  /**
   * The alias table lists each of the first four categories followed by its
   * subcategories, then the eight categories that are their own single
   * subcategory.
   */
  lemma AliasLayout()
    ensures Aliases[0].0 == Categories[0] && Aliases[7].0 == Categories[1]
    ensures Aliases[13].0 == Categories[2] && Aliases[19].0 == Categories[3]
    ensures forall k :: 1 <= k < 7 ==> Aliases[k].0 == Subcategories[Categories[0]][k - 1]
    ensures forall k :: 8 <= k < 13 ==> Aliases[k].0 == Subcategories[Categories[1]][k - 8]
    ensures forall k :: 14 <= k < 19 ==> Aliases[k].0 == Subcategories[Categories[2]][k - 14]
    ensures forall k :: 20 <= k < 23 ==> Aliases[k].0 == Subcategories[Categories[3]][k - 20]
    ensures forall k :: 23 <= k < 31 ==> Aliases[k].0 == Categories[k - 19]
  {
    LiteratureEntries();
    HistoryEntries();
    ScienceEntries();
    FineArtsEntries();
    SingleEntries();
  }

  lemma LiteratureEntries()
    ensures Aliases[0].0 == Categories[0]
    ensures forall k :: 1 <= k < 7 ==> Aliases[k].0 == Subcategories[Categories[0]][k - 1]
  {
  }

  lemma HistoryEntries()
    ensures Aliases[7].0 == Categories[1]
    ensures forall k :: 8 <= k < 13 ==> Aliases[k].0 == Subcategories[Categories[1]][k - 8]
  {
  }

  lemma ScienceEntries()
    ensures Aliases[13].0 == Categories[2]
    ensures forall k :: 14 <= k < 19 ==> Aliases[k].0 == Subcategories[Categories[2]][k - 14]
  {
  }

  lemma FineArtsEntries()
    ensures Aliases[19].0 == Categories[3]
    ensures forall k :: 20 <= k < 23 ==> Aliases[k].0 == Subcategories[Categories[3]][k - 20]
  {
  }

  lemma SingleEntries()
    ensures forall k :: 23 <= k < 31 ==> Aliases[k].0 == Categories[k - 19]
  {
  }

  /** The shape of the category tables, as `CategoriesTable` and `SingleSubcategories` establish it. */
  ghost predicate Shaped(cats: seq<string>, subs: map<string, seq<string>>) {
    && |cats| == 12
    && (forall i :: 0 <= i < 12 ==> cats[i] in subs)
    && |subs[cats[0]]| == 6 && |subs[cats[1]]| == 5 && |subs[cats[2]]| == 5 && |subs[cats[3]]| == 3
    && (forall i :: 4 <= i < 12 ==> subs[cats[i]] == [cats[i]])
  }

  /** The order of the alias table's entries, as `AliasLayout` establishes it. */
  ghost predicate Laid(aliases: seq<(string, seq<string>)>, cats: seq<string>, subs: map<string, seq<string>>)
    requires Shaped(cats, subs)
  {
    && |aliases| == 31
    && aliases[0].0 == cats[0] && aliases[7].0 == cats[1] && aliases[13].0 == cats[2] && aliases[19].0 == cats[3]
    && (forall k :: 1 <= k < 7 ==> aliases[k].0 == subs[cats[0]][k - 1])
    && (forall k :: 8 <= k < 13 ==> aliases[k].0 == subs[cats[1]][k - 8])
    && (forall k :: 14 <= k < 19 ==> aliases[k].0 == subs[cats[2]][k - 14])
    && (forall k :: 20 <= k < 23 ==> aliases[k].0 == subs[cats[3]][k - 20])
    && (forall k :: 23 <= k < 31 ==> aliases[k].0 == cats[k - 19])
  }

  lemma TablesShaped()
    ensures Shaped(Categories, Subcategories)
  {
    CategoriesTable();
    SingleSubcategories();
    SubcategoryCounts();
    assert forall i :: 0 <= i < 12 ==> Categories[i] in Subcategories;
  }

  /** How many subcategories the first four categories have. */
  lemma SubcategoryCounts()
    ensures |Subcategories[Categories[0]]| == 6 && |Subcategories[Categories[1]]| == 5
    ensures |Subcategories[Categories[2]]| == 5 && |Subcategories[Categories[3]]| == 3
  {
  }

  lemma TablesLaid()
    ensures Shaped(Categories, Subcategories) && Laid(Aliases, Categories, Subcategories)
  {
    TablesShaped();
    AliasLayout();
  }

  lemma KeysValidOf(aliases: seq<(string, seq<string>)>, cats: seq<string>, subs: map<string, seq<string>>)
    requires Shaped(cats, subs) && Laid(aliases, cats, subs)
    ensures forall k :: 0 <= k < |aliases| ==>
      aliases[k].0 in cats || exists c :: c in cats && c in subs && aliases[k].0 in subs[c]
  {
    forall k | 0 <= k < |aliases|
      ensures aliases[k].0 in cats || exists c :: c in cats && c in subs && aliases[k].0 in subs[c]
    {
      if 1 <= k < 7 {
        assert aliases[k].0 in subs[cats[0]];
      } else if 8 <= k < 13 {
        assert aliases[k].0 in subs[cats[1]];
      } else if 14 <= k < 19 {
        assert aliases[k].0 in subs[cats[2]];
      } else if 20 <= k < 23 {
        assert aliases[k].0 in subs[cats[3]];
      } else if k < 23 {
        var i := if k == 0 then 0 else if k == 7 then 1 else if k == 13 then 2 else 3;
        assert aliases[k].0 == cats[i];
      } else {
        assert aliases[k].0 == cats[k - 19];
      }
    }
  }

  lemma CoverageOf(aliases: seq<(string, seq<string>)>, cats: seq<string>, subs: map<string, seq<string>>)
    requires Shaped(cats, subs) && Laid(aliases, cats, subs)
    ensures forall i :: 0 <= i < |cats| ==> exists k :: 0 <= k < |aliases| && aliases[k].0 == cats[i]
    ensures forall i, j :: 0 <= i < |cats| && 0 <= j < |subs[cats[i]]| ==>
      exists k :: 0 <= k < |aliases| && aliases[k].0 == subs[cats[i]][j]
  {
    forall i | 0 <= i < |cats|
      ensures exists k :: 0 <= k < |aliases| && aliases[k].0 == cats[i]
    {
      var k := if i == 0 then 0 else if i == 1 then 7 else if i == 2 then 13 else if i == 3 then 19 else i + 19;
      assert aliases[k].0 == cats[i];
    }
    forall i, j | 0 <= i < |cats| && 0 <= j < |subs[cats[i]]|
      ensures exists k :: 0 <= k < |aliases| && aliases[k].0 == subs[cats[i]][j]
    {
      var k := if i == 0 then 1 + j else if i == 1 then 8 + j else if i == 2 then 14 + j
               else if i == 3 then 20 + j else i + 19;
      assert aliases[k].0 == subs[cats[i]][j];
    }
  }

  /** Every entry of the alias table names a category or a subcategory of one. */
  lemma AliasKeysValid()
    ensures forall k :: 0 <= k < |Aliases| ==>
      Aliases[k].0 in Categories || exists c :: c in Categories && c in Subcategories && Aliases[k].0 in Subcategories[c]
  {
    TablesLaid();
    KeysValidOf(Aliases, Categories, Subcategories);
  }

  /** Every category and every subcategory has an entry in the alias table. */
  lemma AliasCoverage()
    ensures forall i :: 0 <= i < |Categories| ==> exists k :: 0 <= k < |Aliases| && Aliases[k].0 == Categories[i]
    ensures forall i, j :: 0 <= i < |Categories| && 0 <= j < |Subcategories[Categories[i]]| ==>
      exists k :: 0 <= k < |Aliases| && Aliases[k].0 == Subcategories[Categories[i]][j]
  {
    TablesLaid();
    CoverageOf(Aliases, Categories, Subcategories);
  }
}
