/**
 * pacman.score.ScoreBoard: the running score of the current game and the
 * table of named scores. The TreeMap is modelled as a list of entries kept
 * strictly ascending by name, which is the order the map iterates in; its
 * content as a map is ToMap.
 */
module Scores {
  import opened Wrappers
  import opened Text

  datatype Entry = Entry(name: string, value: int)

  // ---------------------------------------------------------------------------
  // Names
  // ---------------------------------------------------------------------------

  predicate IsAlphaNumeric(c: char) {
    ('a' <= c <= 'z') || ('A' <= c <= 'Z') || ('0' <= c <= '9')
  }

  /** isValidName: the whole name matches [a-zA-Z0-9]+. */
  predicate ValidName(name: string) {
    |name| >= 1 && forall i :: 0 <= i < |name| ==> IsAlphaNumeric(name[i])
  }

  // ---------------------------------------------------------------------------
  // The table, in the order of its names
  // ---------------------------------------------------------------------------

  predicate SortedByName(t: seq<Entry>) {
    forall i, j :: 0 <= i < j < |t| ==> Below(t[i].name, t[j].name)
  }

  /** What the table may hold: ascending names, each valid, with values of at least zero. */
  predicate Table(t: seq<Entry>) {
    SortedByName(t) && forall i :: 0 <= i < |t| ==> ValidName(t[i].name) && t[i].value >= 0
  }

  /** The table as the map it stands for. */
  function ToMap(t: seq<Entry>): map<string, int>
    decreases |t|
  {
    if t == [] then map[] else ToMap(t[1..])[t[0].name := t[0].value]
  }

  /** Every key of the map is the name of some entry. */
  lemma {:induction false} KeyIndex(t: seq<Entry>, n: string) returns (i: nat)
    requires n in ToMap(t)
    ensures i < |t| && t[i].name == n
    decreases |t|
  {
    if t[0].name == n {
      i := 0;
    } else {
      var k := KeyIndex(t[1..], n);
      i := k + 1;
    }
  }

  /** Every entry's name is a key of the map. */
  lemma {:induction false} NameIsKey(t: seq<Entry>, i: nat)
    requires i < |t|
    ensures t[i].name in ToMap(t)
    decreases i
  {
    if i > 0 {
      NameIsKey(t[1..], i - 1);
    }
  }

  /** In a sorted table the first name lies below every name after it. */
  lemma KeysAfterFirst(t: seq<Entry>)
    requires SortedByName(t) && t != []
    ensures SortedByName(t[1..])
    ensures forall n :: n in ToMap(t[1..]) ==> Below(t[0].name, n)
  {
    forall n | n in ToMap(t[1..])
      ensures Below(t[0].name, n)
    {
      var k := KeyIndex(t[1..], n);
      assert t[k + 1].name == n;
    }
  }

  /** TreeMap.put: insert a new name at its place, or overwrite the value of a present one. */
  function Put(t: seq<Entry>, name: string, v: int): (r: seq<Entry>)
    decreases |t|
  {
    if t == [] then [Entry(name, v)]
    else if t[0].name == name then [Entry(name, v)] + t[1..]
    else if Below(name, t[0].name) then [Entry(name, v)] + t
    else [t[0]] + Put(t[1..], name, v)
  }

  /** put stores exactly the given value under the name and leaves every other key as it was. */
  lemma {:induction false} PutContent(t: seq<Entry>, name: string, v: int)
    ensures ToMap(Put(t, name, v)) == ToMap(t)[name := v]
    decreases |t|
  {
    if t != [] && t[0].name != name && !Below(name, t[0].name) {
      PutContent(t[1..], name, v);
      assert Put(t, name, v)[1..] == Put(t[1..], name, v);
    } else if t != [] && t[0].name == name {
      assert Put(t, name, v)[1..] == t[1..];
    } else if t != [] {
      assert Put(t, name, v)[1..] == t;
    }
  }

  /** put keeps the names in ascending order. */
  lemma {:induction false} PutSorted(t: seq<Entry>, name: string, v: int)
    requires SortedByName(t)
    ensures SortedByName(Put(t, name, v))
    decreases |t|
  {
    if t == [] {
    } else if t[0].name == name {
      var r := Put(t, name, v);
      assert forall j :: 1 <= j < |r| ==> r[j] == t[j];
    } else if Below(name, t[0].name) {
      var r := Put(t, name, v);
      forall i, j | 0 <= i < j < |r| ensures Below(r[i].name, r[j].name) {
        if i == 0 && j > 1 {
          BelowTransitive(name, t[0].name, t[j - 1].name);
        }
      }
    } else {
      BelowTotal(name, t[0].name);
      KeysAfterFirst(t);
      PutSorted(t[1..], name, v);
      PutContent(t[1..], name, v);
      var rest := Put(t[1..], name, v);
      var r := Put(t, name, v);
      assert r == [t[0]] + rest;
      forall i, j | 0 <= i < j < |r| ensures Below(r[i].name, r[j].name) {
        if i == 0 {
          NameIsKey(rest, j - 1);
        }
      }
    }
  }

  /** put of a valid name and a value of at least zero keeps every entry valid. */
  lemma {:induction false} PutValid(t: seq<Entry>, name: string, v: int)
    requires forall i :: 0 <= i < |t| ==> ValidName(t[i].name) && t[i].value >= 0
    requires ValidName(name) && v >= 0
    ensures forall i :: 0 <= i < |Put(t, name, v)| ==> ValidName(Put(t, name, v)[i].name) && Put(t, name, v)[i].value >= 0
    decreases |t|
  {
    if t != [] && t[0].name != name && !Below(name, t[0].name) {
      PutValid(t[1..], name, v);
    }
  }

  /**
   * A table is determined by the map it stands for: two name-sorted tables
   * with the same content are the same list, so comparing the lists is
   * comparing the TreeMaps.
   */
  lemma {:induction false} TableCanonical(a: seq<Entry>, b: seq<Entry>)
    requires SortedByName(a) && SortedByName(b)
    requires ToMap(a) == ToMap(b)
    ensures a == b
    decreases |a|
  {
    if a != [] && b != [] {
      KeysAfterFirst(a);
      KeysAfterFirst(b);
      NameIsKey(a, 0);
      NameIsKey(b, 0);
      var n := a[0].name;
      if n != b[0].name {
        assert b[0].name in ToMap(a[1..]);
        assert n in ToMap(b[1..]);
        BelowAsymmetric(n, b[0].name);
        assert false;
      }
      BelowIrreflexive(n);
      var m := ToMap(a);
      assert n !in ToMap(a[1..]) && n !in ToMap(b[1..]);
      assert ToMap(a[1..]) == m - {n};
      assert ToMap(b[1..]) == m - {n};
      TableCanonical(a[1..], b[1..]);
      assert a == [a[0]] + a[1..] && b == [b[0]] + b[1..];
    } else if a != [] {
      NameIsKey(a, 0);
    } else if b != [] {
      NameIsKey(b, 0);
    }
  }

  // ---------------------------------------------------------------------------
  // The two listings
  // ---------------------------------------------------------------------------

  /** "name : value". */
  function EntryString(e: Entry): string {
    e.name + " : " + IntToString(e.value)
  }

  function Render(t: seq<Entry>): (r: seq<string>)
    ensures |r| == |t| && forall i :: 0 <= i < |t| ==> r[i] == EntryString(t[i])
  {
    seq(|t|, i requires 0 <= i < |t| => EntryString(t[i]))
  }

  /** getEntriesByName: one "name : value" per entry, in the TreeMap's name order. */
  function EntriesByName(t: seq<Entry>): seq<string> {
    Render(t)
  }

  /** Descending by value, and ascending by name among equal values. */
  predicate OrderedByScore(s: seq<Entry>) {
    forall i, j :: 0 <= i < j < |s| ==>
      s[i].value > s[j].value || (s[i].value == s[j].value && Below(s[i].name, s[j].name))
  }

  /** Insert e in front of the first entry whose value is not above e's. */
  function InsertByScore(e: Entry, s: seq<Entry>): (r: seq<Entry>)
    ensures multiset(r) == multiset(s) + multiset{e}
    decreases |s|
  {
    if s == [] || s[0].value <= e.value then [e] + s
    else
      assert s == [s[0]] + s[1..];
      [s[0]] + InsertByScore(e, s[1..])
  }

  /** Inserting an entry whose name lies below all others keeps the order by score. */
  lemma {:induction false} InsertOrdered(e: Entry, s: seq<Entry>)
    requires OrderedByScore(s)
    requires forall k :: 0 <= k < |s| ==> Below(e.name, s[k].name)
    ensures OrderedByScore(InsertByScore(e, s))
    decreases |s|
  {
    var r := InsertByScore(e, s);
    if s == [] || s[0].value <= e.value {
      forall i, j | 0 <= i < j < |r|
        ensures r[i].value > r[j].value || (r[i].value == r[j].value && Below(r[i].name, r[j].name))
      {
        if i == 0 && j > 1 {
          assert s[0].value >= s[j - 1].value;
        }
      }
    } else {
      var rest := InsertByScore(e, s[1..]);
      InsertOrdered(e, s[1..]);
      assert r == [s[0]] + rest;
      forall j | 1 <= j < |r|
        ensures s[0].value > r[j].value || (s[0].value == r[j].value && Below(s[0].name, r[j].name))
      {
        assert r[j] in multiset(rest);
        if r[j] != e {
          assert r[j] in multiset(s[1..]);
          var k :| 0 <= k < |s[1..]| && s[1..][k] == r[j];
          assert s[k + 1] == r[j];
        }
      }
    }
  }

  /** The stable sort of the name-ordered entries by descending value. */
  function SortByScore(t: seq<Entry>): (r: seq<Entry>)
    ensures multiset(r) == multiset(t)
    decreases |t|
  {
    if t == [] then []
    else
      assert t == [t[0]] + t[1..];
      InsertByScore(t[0], SortByScore(t[1..]))
  }

  /** The by-score order of a name-sorted table is descending by value, ties ascending by name. */
  lemma {:induction false} SortByScoreOrdered(t: seq<Entry>)
    requires SortedByName(t)
    ensures OrderedByScore(SortByScore(t))
    decreases |t|
  {
    if t != [] {
      var rest := SortByScore(t[1..]);
      SortByScoreOrdered(t[1..]);
      forall k | 0 <= k < |rest| ensures Below(t[0].name, rest[k].name) {
        assert rest[k] in multiset(t[1..]);
        var i :| 0 <= i < |t[1..]| && t[1..][i] == rest[k];
        assert t[i + 1] == rest[k];
      }
      InsertOrdered(t[0], rest);
    }
  }

  /** getEntriesByScore. */
  function EntriesByScore(t: seq<Entry>): seq<string> {
    Render(SortByScore(t))
  }

  /**
   * Order B is total on a table: the by-score listing is the one arrangement
   * of the table's entries that is ordered by score, so any sort that orders
   * them (the stream sort of the source included) gives the same list.
   */
  lemma {:induction false} ByScoreUnique(t: seq<Entry>, s: seq<Entry>)
    requires SortedByName(t) && OrderedByScore(s) && multiset(s) == multiset(t)
    ensures s == SortByScore(t)
  {
    var r := SortByScore(t);
    SortByScoreOrdered(t);
    OrderedUnique(s, r);
  }

  /** Two orderings of the same entries by score start with the same entry. */
  lemma SameFirst(s: seq<Entry>, r: seq<Entry>)
    requires OrderedByScore(s) && OrderedByScore(r) && multiset(s) == multiset(r) && s != []
    ensures r != [] && s[0] == r[0]
  {
    assert s[0] in multiset(r);
    assert r[0] in multiset(s);
    var i :| 0 <= i < |r| && r[i] == s[0];
    var j :| 0 <= j < |s| && s[j] == r[0];
    if i > 0 && j > 0 && r[0].value == s[0].value {
      BelowAsymmetric(r[0].name, s[0].name);
    }
  }

  lemma {:induction false} OrderedUnique(s: seq<Entry>, r: seq<Entry>)
    requires OrderedByScore(s) && OrderedByScore(r) && multiset(s) == multiset(r)
    ensures s == r
    decreases |s|
  {
    if s != [] {
      SameFirst(s, r);
      TailMultiset(s);
      TailMultiset(r);
      OrderedUnique(s[1..], r[1..]);
      assert s == [s[0]] + s[1..] && r == [r[0]] + r[1..];
    } else {
      assert |r| == |multiset(r)|;
    }
  }

  lemma TailMultiset(s: seq<Entry>)
    requires s != []
    ensures multiset(s[1..]) == multiset(s) - multiset{s[0]}
    ensures OrderedByScore(s) ==> OrderedByScore(s[1..])
  {
    assert s == [s[0]] + s[1..];
  }

  /** The entry strings of a valid name split back into the name and the value's digits. */
  lemma EntryStringSplits(e: Entry)
    requires ValidName(e.name)
    ensures Split(EntryString(e), " : ") == [e.name, IntToString(e.value)]
  {
    IntToStringAvoids(e.value, ' ');
    var v := IntToString(e.value);
    IndexOfAvoiding(v, " : ");
    assert EntryString(e) == e.name + " : " + v;
    SplitPair(e.name, " : ", v);
  }

  // ---------------------------------------------------------------------------
  // The mutable score board
  // ---------------------------------------------------------------------------

  /** The entries of m under the given keys that setScore accepts: valid names, values of at least zero. */
  function AcceptedOf(m: map<string, int>, keys: set<string>): map<string, int> {
    map k | k in keys && k in m && ValidName(k) && m[k] >= 0 :: m[k]
  }

  /** All the entries of m that setScore accepts. */
  function Accepted(m: map<string, int>): map<string, int> {
    AcceptedOf(m, m.Keys)
  }

  /** Storing one more key of m, after those in keys, on top of a starting map. */
  lemma AcceptedOfOneMore(start: map<string, int>, m: map<string, int>, keys: set<string>, k: string)
    requires k in m
    ensures start + AcceptedOf(m, keys + {k}) ==
            if ValidName(k) && m[k] >= 0 then (start + AcceptedOf(m, keys))[k := m[k]]
            else start + AcceptedOf(m, keys)
  {
    if ValidName(k) && m[k] >= 0 {
      assert AcceptedOf(m, keys + {k}) == AcceptedOf(m, keys)[k := m[k]];
    } else {
      assert AcceptedOf(m, keys + {k}) == AcceptedOf(m, keys);
    }
  }

  class ScoreBoard {
    var currentScore: int
    var table: seq<Entry>

    ghost predicate Valid()
      reads this
    {
      currentScore >= 0 && Table(table)
    }

    /** new ScoreBoard(): score zero, no entries. */
    constructor ()
      ensures Valid() && currentScore == 0 && table == []
    {
      currentScore := 0;
      table := [];
    }

    /**
     * setScore: store or overwrite the entry exactly when the name is present
     * and valid and the score is at least zero; otherwise nothing changes.
     */
    method SetScore(name: Option<string>, score: int)
      requires Valid()
      modifies this
      ensures Valid() && currentScore == old(currentScore)
      ensures if name.Some? && ValidName(name.value) && score >= 0
              then ToMap(table) == old(ToMap(table))[name.value := score]
              else table == old(table)
    {
      if name.Some? && ValidName(name.value) && score >= 0 {
        PutSorted(table, name.value, score);
        PutContent(table, name.value, score);
        PutValid(table, name.value, score);
        table := Put(table, name.value, score);
      }
    }

    /** setScores: every acceptable entry of the map is stored; a null map changes nothing. */
    method SetScores(scores: Option<map<string, int>>)
      requires Valid()
      modifies this
      ensures Valid() && currentScore == old(currentScore)
      ensures scores.None? ==> table == old(table)
      ensures scores.Some? ==> ToMap(table) == old(ToMap(table)) + Accepted(scores.value)
    {
      if scores.Some? {
        var m := scores.value;
        var pending := m.Keys;
        ghost var done: set<string> := {};
        ghost var start := ToMap(table);
        while pending != {}
          invariant Valid() && currentScore == old(currentScore)
          invariant pending + done == m.Keys && pending !! done
          invariant ToMap(table) == start + AcceptedOf(m, done)
          decreases |pending|
        {
          var k :| k in pending;
          AcceptedOfOneMore(start, m, done, k);
          SetScore(Some(k), m[k]);
          pending := pending - {k};
          done := done + {k};
        }
      }
    }

    /** increaseScore: only positive amounts are added. */
    method IncreaseScore(additional: int)
      requires Valid()
      modifies this
      ensures Valid() && table == old(table)
      ensures currentScore == old(currentScore) + (if additional > 0 then additional else 0)
    {
      if additional > 0 {
        currentScore := currentScore + additional;
      }
    }

    /** getScore. */
    method GetScore() returns (r: int)
      requires Valid()
      ensures r == currentScore && r >= 0
    {
      return currentScore;
    }

    /** reset: the current score returns to zero and the table stays. */
    method Reset()
      requires Valid()
      modifies this
      ensures Valid() && currentScore == 0 && table == old(table)
    {
      currentScore := 0;
    }

    /** getEntriesByName: the entries copied out of the table in its order. */
    method GetEntriesByName() returns (r: seq<string>)
      requires Valid()
      ensures r == EntriesByName(table)
    {
      r := [];
      var i := 0;
      while i < |table|
        invariant 0 <= i <= |table|
        invariant r == EntriesByName(table[..i])
      {
        r := r + [EntryString(table[i])];
        i := i + 1;
      }
      assert table[..|table|] == table;
    }

    /** getEntriesByScore. */
    method GetEntriesByScore() returns (r: seq<string>)
      requires Valid()
      ensures r == EntriesByScore(table)
    {
      r := EntriesByScore(table);
    }

    /** equals: the same current score and the same map of names to scores. */
    method Equals(other: ScoreBoard) returns (r: bool)
      requires Valid() && other.Valid()
      ensures r <==> currentScore == other.currentScore && ToMap(table) == ToMap(other.table)
    {
      r := currentScore == other.currentScore && table == other.table;
      if ToMap(table) == ToMap(other.table) {
        TableCanonical(table, other.table);
      }
    }
  }
}
