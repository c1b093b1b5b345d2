/**
 * The alias table has no collisions: ignoring case and spaces, no name
 * of one entry (its key or one of its aliases) is a name of another. So
 * the first-match lookup behind `parse_subcats` does not depend on the
 * order of the table: a word that matches an entry resolves to that
 * entry, and every name resolves to the subcategories of its own key.
 *
 * The proof gives every folded name an owner, read off its length and a
 * few of its letters, and shows entry by entry that all of the entry's
 * names have that entry as owner; two names that fold alike then have
 * the same owner and so belong to the same entry.
 */
module AliasIndex {
  import opened Wrappers
  import opened Text
  import opened Tables
  import opened CategoryFilter

  /** An entry's names: its key, then its aliases. */
  function Names(entry: (string, seq<string>)): (r: seq<string>)
    ensures |r| == 1 + |entry.1| && r[0] == entry.0 && r[1..] == entry.1
  {
    [entry.0] + entry.1
  }

  /**
   * The entry a folded name of the table belongs to, read off its length,
   * its first two letters and its last letter; -1 for strings that are no
   * folded name of the table.
   */
  function Owner(t: string): int {
    if |t| == 1 then
      if t[0] == 'l' then 0
      else if t[0] == 'h' then 7
      else if t[0] == 'r' then 23
      else if t[0] == 'm' then 24
      else if t[0] == 'p' then 25
      else if t[0] == 'g' then 28
      else if t[0] == 'o' then 29
      else if t[0] == 't' then 30
      else -1
    else if |t| == 2 then
      if t[0] == 'f' && t[1] == 'a' then 19
      else if t[0] == 's' && t[1] == 's' then 26
      else if t[0] == 'c' && t[1] == 'e' then 27
      else -1
    else if |t| == 3 then
      if t[0] == 'l' && t[1] == 'i' && t[2] == 't' then 0
      else if t[0] == 's' && t[1] == 'c' && t[2] == 'i' then 13
      else if t[0] == 'b' && t[1] == 'i' && t[2] == 'o' then 14
      else if t[0] == 'v' && t[1] == 'f' && t[2] == 'a' then 20
      else if t[0] == 'a' && t[1] == 'f' && t[2] == 'a' then 21
      else if t[0] == 'r' && t[1] == 'e' && t[2] == 'l' then 23
      else if t[0] == 'g' && t[1] == 'e' && t[2] == 'o' then 28
      else -1
    else if |t| == 4 then
      if t[0] == 'h' && t[1] == 'i' && t[3] == 't' then 7
      else if t[0] == 'c' && t[1] == 'h' && t[3] == 'm' then 15
      else if t[0] == 'p' && t[1] == 'h' && t[3] == 's' then 16
      else if t[0] == 'm' && t[1] == 'a' && t[3] == 'h' then 17
      else if t[0] == 'a' && t[1] == 'r' && t[3] == 's' then 19
      else if t[0] == 'm' && t[1] == 'y' && t[3] == 'h' then 24
      else if t[0] == 'p' && t[1] == 'h' && t[3] == 'l' then 25
      else -1
    else if |t| == 5 then
      if t[0] == 'a' && t[1] == 'm' && t[4] == 't' then 1
      else if t[0] == 'u' && t[1] == 's' && t[4] == 't' then 1
      else if t[0] == 'v' && t[1] == 'i' && t[4] == 'a' then 20
      else if t[0] == 't' && t[1] == 'r' && t[4] == 'h' then 30
      else -1
    else if |t| == 6 then
      if t[0] == 'a' && t[1] == 'm' && t[5] == 't' then 8
      else if t[0] == 'u' && t[1] == 's' && t[5] == 't' then 8
      else if t[0] == 's' && t[1] == 'o' && t[5] == 'i' then 26
      else -1
    else if |t| == 7 then
      if t[0] == 'b' && t[1] == 'r' && t[6] == 't' then 2
      else if t[0] == 'c' && t[1] == 'l' && t[6] == 'c' then 3
      else if t[0] == 'e' && t[1] == 'u' && t[6] == 't' then 4
      else if t[0] == 'h' && t[1] == 'i' && t[6] == 'y' then 7
      else if t[0] == 's' && t[1] == 'c' && t[6] == 'e' then 13
      else if t[0] == 'b' && t[1] == 'i' && t[6] == 'y' then 14
      else if t[0] == 'p' && t[1] == 'h' && t[6] == 's' then 16
      else if t[0] == 'f' && t[1] == 'i' && t[6] == 't' then 19
      else if t[0] == 'v' && t[1] == 'i' && t[6] == 's' then 20
      else if t[0] == 'a' && t[1] == 'u' && t[6] == 'a' then 21
      else if t[0] == 'o' && t[1] == 't' && t[6] == 'a' then 22
      else -1
    else if |t| == 8 then
      if t[0] == 'a' && t[1] == 'm' && t[7] == 't' then 1
      else if t[0] == 'c' && t[1] == 'l' && t[7] == 's' then 3
      else if t[0] == 'w' && t[1] == 'o' && t[7] == 't' then 5
      else if t[0] == 'o' && t[1] == 't' && t[7] == 't' then 6
      else if t[0] == 'e' && t[1] == 'u' && t[7] == 't' then 10
      else if t[0] == 'o' && t[1] == 't' && t[7] == 'i' then 18
      else if t[0] == 'f' && t[1] == 'i' && t[7] == 's' then 19
      else if t[0] == 'r' && t[1] == 'e' && t[7] == 'n' then 23
      else -1
    else if |t| == 9 then
      if t[0] == 'a' && t[1] == 'm' && t[8] == 't' then 8
      else if t[0] == 'w' && t[1] == 'o' && t[8] == 't' then 11
      else if t[0] == 'o' && t[1] == 't' && t[8] == 't' then 12
      else if t[0] == 'c' && t[1] == 'h' && t[8] == 'y' then 15
      else if t[0] == 'a' && t[1] == 'u' && t[8] == 's' then 21
      else if t[0] == 'o' && t[1] == 't' && t[8] == 's' then 22
      else if t[0] == 'm' && t[1] == 'y' && t[8] == 'y' then 24
      else if t[0] == 'g' && t[1] == 'e' && t[8] == 'y' then 28
      else -1
    else if |t| == 10 then
      if t[0] == 'l' && t[1] == 'i' && t[9] == 'e' then 0
      else if t[0] == 'b' && t[1] == 'r' && t[9] == 't' then 2
      else if t[0] == 'v' && t[1] == 'i' && t[9] == 't' then 20
      else if t[0] == 'p' && t[1] == 'h' && t[9] == 'y' then 25
      else if t[0] == 'c' && t[1] == 'u' && t[9] == 's' then 27
      else -1
    else if |t| == 11 then
      if t[0] == 'a' && t[1] == 'm' && t[10] == 't' then 1
      else if t[0] == 'e' && t[1] == 'u' && t[10] == 't' then 4
      else if t[0] == 'a' && t[1] == 'n' && t[10] == 't' then 9
      else -1
    else if |t| == 12 then
      if t[0] == 'c' && t[1] == 'l' && t[11] == 't' then 3
      else if t[0] == 'a' && t[1] == 'm' && t[11] == 't' then 8
      else if t[0] == 'e' && t[1] == 'u' && t[11] == 't' then 10
      else if t[0] == 'w' && t[1] == 'o' && t[11] == 'y' then 11
      else if t[0] == 'o' && t[1] == 't' && t[11] == 'y' then 12
      else if t[0] == 'o' && t[1] == 't' && t[11] == 'e' then 18
      else if t[0] == 'a' && t[1] == 'u' && t[11] == 't' then 21
      else if t[0] == 'o' && t[1] == 't' && t[11] == 't' then 22
      else -1
    else if |t| == 13 then
      if t[0] == 'o' && t[1] == 't' && t[12] == 's' then 22
      else if t[0] == 's' && t[1] == 'o' && t[12] == 'e' then 26
      else if t[0] == 'c' && t[1] == 'u' && t[12] == 's' then 27
      else if t[0] == 'o' && t[1] == 't' && t[12] == 'c' then 29
      else -1
    else if |t| == 14 then
      if t[0] == 'a' && t[1] == 'n' && t[13] == 'y' then 9
      else if t[0] == 'v' && t[1] == 'i' && t[13] == 's' then 20
      else -1
    else if |t| == 15 then
      if t[0] == 'w' && t[1] == 'o' && t[14] == 'e' then 5
      else if t[0] == 'o' && t[1] == 't' && t[14] == 'e' then 6
      else if t[0] == 'a' && t[1] == 'm' && t[14] == 'y' then 8
      else if t[0] == 'e' && t[1] == 'u' && t[14] == 'y' then 10
      else -1
    else if |t| == 16 then
      if t[0] == 'a' && t[1] == 'u' && t[15] == 's' then 21
      else -1
    else if |t| == 17 then
      if t[0] == 'b' && t[1] == 'r' && t[16] == 'e' then 2
      else -1
    else if |t| == 18 then
      if t[0] == 'a' && t[1] == 'm' && t[17] == 'e' then 1
      else if t[0] == 'e' && t[1] == 'u' && t[17] == 'e' then 4
      else -1
    else if |t| == 19 then
      if t[0] == 'c' && t[1] == 'l' && t[18] == 'e' then 3
      else -1
    else -1
  }

  /** A one-word name owned by entry `k`. */
  lemma WordOwner(w: string, k: int)
    requires ' ' !in w && Owner(Lower(w)) == k
    ensures Owner(Fold(w)) == k
  {
    FoldWord(w);
  }

  /** A two-word name, with its space at index `i`, owned by entry `k`. */
  lemma PhraseOwner(x: string, i: nat, k: int)
    requires i < |x| && x[i] == ' ' && ' ' !in x[..i] && ' ' !in x[i + 1..]
    requires Owner(Lower(x[..i]) + Lower(x[i + 1..])) == k
    ensures Owner(Fold(x)) == k
  {
    FoldPair(x, i);
  }

  /** A three-word name, with its spaces at indices `i` and `j`, owned by entry `k`. */
  lemma TripleOwner(x: string, i: nat, j: nat, k: int)
    requires i < j < |x| && x[i] == ' ' && x[j] == ' '
    requires ' ' !in x[..i] && ' ' !in x[i + 1..j] && ' ' !in x[j + 1..]
    requires Owner(Lower(x[..i]) + Lower(x[i + 1..j]) + Lower(x[j + 1..])) == k
    ensures Owner(Fold(x)) == k
  {
    FoldTriple(x, i, j);
  }

  // ------------------------------------------------------ entry by entry

  lemma Owns0()
    ensures forall x <- Names(Aliases[0]) :: Owner(Fold(x)) == 0
  {
    assert Names(Aliases[0]) == ["Literature", "l", "lit"];
    WordOwner("Literature", 0);
    WordOwner("l", 0);
    WordOwner("lit", 0);
  }

  lemma Owns1()
    ensures forall x <- Names(Aliases[1]) :: Owner(Fold(x)) == 1
  {
    assert Names(Aliases[1]) == ["American Literature", "am lit", "us lit", "ameri lit", "american lit"];
    PhraseOwner("American Literature", 8, 1);
    PhraseOwner("am lit", 2, 1);
    PhraseOwner("us lit", 2, 1);
    PhraseOwner("ameri lit", 5, 1);
    PhraseOwner("american lit", 8, 1);
  }

  lemma Owns2()
    ensures forall x <- Names(Aliases[2]) :: Owner(Fold(x)) == 2
  {
    assert Names(Aliases[2]) == ["British Literature", "brit lit", "british lit"];
    PhraseOwner("British Literature", 7, 2);
    PhraseOwner("brit lit", 4, 2);
    PhraseOwner("british lit", 7, 2);
  }

  lemma Owns3()
    ensures forall x <- Names(Aliases[3]) :: Owner(Fold(x)) == 3
  {
    assert Names(Aliases[3]) == ["Classical Literature", "classic", "classics", "classical lit"];
    PhraseOwner("Classical Literature", 9, 3);
    WordOwner("classic", 3);
    WordOwner("classics", 3);
    PhraseOwner("classical lit", 9, 3);
  }

  lemma Owns4()
    ensures forall x <- Names(Aliases[4]) :: Owner(Fold(x)) == 4
  {
    assert Names(Aliases[4]) == ["European Literature", "euro lit", "european lit"];
    PhraseOwner("European Literature", 8, 4);
    PhraseOwner("euro lit", 4, 4);
    PhraseOwner("european lit", 8, 4);
  }

  lemma Owns5()
    ensures forall x <- Names(Aliases[5]) :: Owner(Fold(x)) == 5
  {
    assert Names(Aliases[5]) == ["World Literature", "world lit"];
    PhraseOwner("World Literature", 5, 5);
    PhraseOwner("world lit", 5, 5);
  }

  lemma Owns6()
    ensures forall x <- Names(Aliases[6]) :: Owner(Fold(x)) == 6
  {
    assert Names(Aliases[6]) == ["Other Literature", "other lit"];
    PhraseOwner("Other Literature", 5, 6);
    PhraseOwner("other lit", 5, 6);
  }

  lemma Owns7()
    ensures forall x <- Names(Aliases[7]) :: Owner(Fold(x)) == 7
  {
    assert Names(Aliases[7]) == ["History", "h", "hist"];
    WordOwner("History", 7);
    WordOwner("h", 7);
    WordOwner("hist", 7);
  }

  lemma Owns8()
    ensures forall x <- Names(Aliases[8]) :: Owner(Fold(x)) == 8
  {
    assert Names(Aliases[8]) == ["American History", "am hist", "us hist", "ameri hist", "american hist"];
    PhraseOwner("American History", 8, 8);
    PhraseOwner("am hist", 2, 8);
    PhraseOwner("us hist", 2, 8);
    PhraseOwner("ameri hist", 5, 8);
    PhraseOwner("american hist", 8, 8);
  }

  lemma Owns9()
    ensures forall x <- Names(Aliases[9]) :: Owner(Fold(x)) == 9
  {
    assert Names(Aliases[9]) == ["Ancient History", "ancient hist"];
    PhraseOwner("Ancient History", 7, 9);
    PhraseOwner("ancient hist", 7, 9);
  }

  lemma Owns10()
    ensures forall x <- Names(Aliases[10]) :: Owner(Fold(x)) == 10
  {
    assert Names(Aliases[10]) == ["European History", "euro hist", "european hist"];
    PhraseOwner("European History", 8, 10);
    PhraseOwner("euro hist", 4, 10);
    PhraseOwner("european hist", 8, 10);
  }

  lemma Owns11()
    ensures forall x <- Names(Aliases[11]) :: Owner(Fold(x)) == 11
  {
    assert Names(Aliases[11]) == ["World History", "world hist"];
    PhraseOwner("World History", 5, 11);
    PhraseOwner("world hist", 5, 11);
  }

  lemma Owns12()
    ensures forall x <- Names(Aliases[12]) :: Owner(Fold(x)) == 12
  {
    assert Names(Aliases[12]) == ["Other History", "other hist"];
    PhraseOwner("Other History", 5, 12);
    PhraseOwner("other hist", 5, 12);
  }

  lemma Owns13()
    ensures forall x <- Names(Aliases[13]) :: Owner(Fold(x)) == 13
  {
    assert Names(Aliases[13]) == ["Science", "sci"];
    WordOwner("Science", 13);
    WordOwner("sci", 13);
  }

  lemma Owns14()
    ensures forall x <- Names(Aliases[14]) :: Owner(Fold(x)) == 14
  {
    assert Names(Aliases[14]) == ["Biology", "bio"];
    WordOwner("Biology", 14);
    WordOwner("bio", 14);
  }

  lemma Owns15()
    ensures forall x <- Names(Aliases[15]) :: Owner(Fold(x)) == 15
  {
    assert Names(Aliases[15]) == ["Chemistry", "chem"];
    WordOwner("Chemistry", 15);
    WordOwner("chem", 15);
  }

  lemma Owns16()
    ensures forall x <- Names(Aliases[16]) :: Owner(Fold(x)) == 16
  {
    assert Names(Aliases[16]) == ["Physics", "phys"];
    WordOwner("Physics", 16);
    WordOwner("phys", 16);
  }

  lemma Owns17()
    ensures forall x <- Names(Aliases[17]) :: Owner(Fold(x)) == 17
  {
    assert Names(Aliases[17]) == ["Math", "math"];
    WordOwner("Math", 17);
    WordOwner("math", 17);
  }

  lemma Owns18()
    ensures forall x <- Names(Aliases[18]) :: Owner(Fold(x)) == 18
  {
    assert Names(Aliases[18]) == ["Other Science", "other sci"];
    PhraseOwner("Other Science", 5, 18);
    PhraseOwner("other sci", 5, 18);
  }

  lemma Owns19()
    ensures forall x <- Names(Aliases[19]) :: Owner(Fold(x)) == 19
  {
    assert Names(Aliases[19]) == ["Fine Arts", "fa", "arts", "fine art"];
    PhraseOwner("Fine Arts", 4, 19);
    WordOwner("fa", 19);
    WordOwner("arts", 19);
    PhraseOwner("fine art", 4, 19);
  }

  lemma Owns20()
    ensures forall x <- Names(Aliases[20]) :: Owner(Fold(x)) == 20
  {
    assert Names(Aliases[20]) == ["Visual Fine Arts", "vfa", "vis fa", "vis arts", "vis fine art"];
    TripleOwner("Visual Fine Arts", 6, 11, 20);
    WordOwner("vfa", 20);
    PhraseOwner("vis fa", 3, 20);
    PhraseOwner("vis arts", 3, 20);
    TripleOwner("vis fine art", 3, 8, 20);
  }

  lemma Owns21()
    ensures forall x <- Names(Aliases[21]) :: Owner(Fold(x)) == 21
  {
    assert Names(Aliases[21]) == ["Auditory Fine Arts", "afa", "audio fa", "audio arts", "audio fine art"];
    TripleOwner("Auditory Fine Arts", 8, 13, 21);
    WordOwner("afa", 21);
    PhraseOwner("audio fa", 5, 21);
    PhraseOwner("audio arts", 5, 21);
    TripleOwner("audio fine art", 5, 10, 21);
  }

  lemma Owns22()
    ensures forall x <- Names(Aliases[22]) :: Owner(Fold(x)) == 22
  {
    assert Names(Aliases[22]) == ["Other Fine Arts", "other fa", "other arts", "other fine art"];
    TripleOwner("Other Fine Arts", 5, 10, 22);
    PhraseOwner("other fa", 5, 22);
    PhraseOwner("other arts", 5, 22);
    TripleOwner("other fine art", 5, 10, 22);
  }

  lemma Owns23()
    ensures forall x <- Names(Aliases[23]) :: Owner(Fold(x)) == 23
  {
    assert Names(Aliases[23]) == ["Religion", "r", "rel"];
    WordOwner("Religion", 23);
    WordOwner("r", 23);
    WordOwner("rel", 23);
  }

  lemma Owns24()
    ensures forall x <- Names(Aliases[24]) :: Owner(Fold(x)) == 24
  {
    assert Names(Aliases[24]) == ["Mythology", "m", "myth"];
    WordOwner("Mythology", 24);
    WordOwner("m", 24);
    WordOwner("myth", 24);
  }

  lemma Owns25()
    ensures forall x <- Names(Aliases[25]) :: Owner(Fold(x)) == 25
  {
    assert Names(Aliases[25]) == ["Philosophy", "p", "phil"];
    WordOwner("Philosophy", 25);
    WordOwner("p", 25);
    WordOwner("phil", 25);
  }

  lemma Owns26()
    ensures forall x <- Names(Aliases[26]) :: Owner(Fold(x)) == 26
  {
    assert Names(Aliases[26]) == ["Social Science", "ss", "soc sci"];
    PhraseOwner("Social Science", 6, 26);
    WordOwner("ss", 26);
    PhraseOwner("soc sci", 3, 26);
  }

  lemma Owns27()
    ensures forall x <- Names(Aliases[27]) :: Owner(Fold(x)) == 27
  {
    assert Names(Aliases[27]) == ["Current Events", "ce", "curr events"];
    PhraseOwner("Current Events", 7, 27);
    WordOwner("ce", 27);
    PhraseOwner("curr events", 4, 27);
  }

  lemma Owns28()
    ensures forall x <- Names(Aliases[28]) :: Owner(Fold(x)) == 28
  {
    assert Names(Aliases[28]) == ["Geography", "g", "geo"];
    WordOwner("Geography", 28);
    WordOwner("g", 28);
    WordOwner("geo", 28);
  }

  lemma Owns29()
    ensures forall x <- Names(Aliases[29]) :: Owner(Fold(x)) == 29
  {
    assert Names(Aliases[29]) == ["Other Academic", "o", "other academic"];
    PhraseOwner("Other Academic", 5, 29);
    WordOwner("o", 29);
    PhraseOwner("other academic", 5, 29);
  }

  lemma Owns30()
    ensures forall x <- Names(Aliases[30]) :: Owner(Fold(x)) == 30
  {
    assert Names(Aliases[30]) == ["Trash", "t", "trash"];
    WordOwner("Trash", 30);
    WordOwner("t", 30);
    WordOwner("trash", 30);
  }

  lemma OwnerAt(k: nat)
    requires k < |Aliases|
    ensures forall x <- Names(Aliases[k]) :: Owner(Fold(x)) == k
  {
    if k == 0 {
      Owns0();
    } else if k == 1 {
      Owns1();
    } else if k == 2 {
      Owns2();
    } else if k == 3 {
      Owns3();
    } else if k == 4 {
      Owns4();
    } else if k == 5 {
      Owns5();
    } else if k == 6 {
      Owns6();
    } else if k == 7 {
      Owns7();
    } else if k == 8 {
      Owns8();
    } else if k == 9 {
      Owns9();
    } else if k == 10 {
      Owns10();
    } else if k == 11 {
      Owns11();
    } else if k == 12 {
      Owns12();
    } else if k == 13 {
      Owns13();
    } else if k == 14 {
      Owns14();
    } else if k == 15 {
      Owns15();
    } else if k == 16 {
      Owns16();
    } else if k == 17 {
      Owns17();
    } else if k == 18 {
      Owns18();
    } else if k == 19 {
      Owns19();
    } else if k == 20 {
      Owns20();
    } else if k == 21 {
      Owns21();
    } else if k == 22 {
      Owns22();
    } else if k == 23 {
      Owns23();
    } else if k == 24 {
      Owns24();
    } else if k == 25 {
      Owns25();
    } else if k == 26 {
      Owns26();
    } else if k == 27 {
      Owns27();
    } else if k == 28 {
      Owns28();
    } else if k == 29 {
      Owns29();
    } else if k == 30 {
      Owns30();
    }
  }

  // ------------------------------------------------------------ consequences

  /** No collisions: two names of the table that fold alike belong to the same entry. */
  lemma NoCollisions(j: nat, k: nat, x: string, y: string)
    requires j < |Aliases| && k < |Aliases|
    requires x in Names(Aliases[j]) && y in Names(Aliases[k])
    requires Fold(x) == Fold(y)
    ensures j == k
  {
    OwnerAt(j);
    OwnerAt(k);
  }

  /** No word matches two entries of the table. */
  lemma MatchUnique(s: string, j: nat, k: nat)
    requires j < |Aliases| && k < |Aliases|
    requires Matches(s, Aliases[j]) && Matches(s, Aliases[k])
    ensures j == k
  {
    var x :| x in Names(Aliases[j]) && Fold(s) == Fold(x);
    var y :| y in Names(Aliases[k]) && Fold(s) == Fold(y);
    NoCollisions(j, k, x, y);
  }

  /** The first-match lookup finds whichever entry the word matches. */
  lemma LookupMatch(s: string, k: nat)
    requires k < |Aliases| && Matches(s, Aliases[k])
    ensures Lookup(s, Aliases) == k
  {
    var m := Lookup(s, Aliases);
    assert m <= k;
    MatchUnique(s, m, k);
  }

  /** Resolving a name of the table gives its own key's subcategories. */
  lemma ResolveName(k: nat, x: string)
    requires k < |Aliases| && x in Names(Aliases[k])
    ensures var key := Aliases[k].0;
      Resolve(x) == Ok(if key in Categories then Subcategories[key] else [key])
  {
    assert Matches(x, Aliases[k]);
    LookupMatch(x, k);
  }
}
