/**
 * The order of the board page: a priority per title (co-presidents, then
 * presidents, directors, co-directors, other titles, and untitled members
 * last), ties broken by the lowercased title, and the sort that applies it.
 */
module BoardRanking {
  import opened Wrappers
  import opened Text
  import opened ApiTypes

  /** The priority given to a missing or empty title. */
  const Untitled := 999

  /** `getTitlePriority`: a lower number sorts earlier. */
  function TitlePriority(title: Option<string>): (r: int)
    ensures r in {1, 2, 3, 4, 5, Untitled}
    ensures r == Untitled <==> title.None? || title.value == ""
  {
    if title.None? || title.value == "" then Untitled
    else
      var lower := ToLower(title.value);
      if Contains(lower, "co-president") then 1
      else if Contains(lower, "president") && !Contains(lower, "co-") then 2
      else if Contains(lower, "director") && !Contains(lower, "co-") then 3
      else if Contains(lower, "co-director") then 4
      else 5
  }

  /** The priority depends on the title only up to letter case. */
  lemma PriorityIgnoresCase(t: string)
    ensures TitlePriority(Some(ToLower(t))) == TitlePriority(Some(t))
  {
    ToLowerIdempotent(t);
  }

  /** What each priority says about the lowercased title. */
  lemma PriorityMeaning(t: string)
    requires t != ""
    ensures var lower := ToLower(t);
      && (TitlePriority(Some(t)) == 1 <==> Contains(lower, "co-president"))
      && (TitlePriority(Some(t)) == 2 ==> Contains(lower, "president") && !Contains(lower, "co-"))
      && (TitlePriority(Some(t)) == 3 ==> Contains(lower, "director") && !Contains(lower, "co-") && !Contains(lower, "president"))
      && (TitlePriority(Some(t)) == 4 ==> Contains(lower, "co-director") && Contains(lower, "co-") && !Contains(lower, "co-president"))
      && (TitlePriority(Some(t)) == 5 ==> !Contains(lower, "co-director") && !(Contains(lower, "director") && !Contains(lower, "co-")))
      && (Contains(lower, "co-") ==> TitlePriority(Some(t)) !in {2, 3})
      && ((Contains(lower, "co-") && Contains(lower, "director") && !Contains(lower, "co-director")
           && !Contains(lower, "co-president")) ==> TitlePriority(Some(t)) == 5)
  {
    var lower := ToLower(t);
    if Contains(lower, "co-director") {
      ContainsPrefixOf(lower, "co-director", "co-");
    }
  }

  lemma CoPresidentExample()
    ensures TitlePriority(Some("Co-President")) == 1
  {
    assert ToLower("Co-President") == "co-president";
    assert OccursAt("co-president", "co-president", 0);
  }

  lemma VicePresidentExample()
    ensures TitlePriority(Some("Vice President")) == 2
  {
    assert ToLower("Vice President") == "vice president";
    VicePresidentWords();
  }

  lemma VicePresidentWords()
    ensures var lower := "vice president";
      !Contains(lower, "co-president") && Contains(lower, "president") && !Contains(lower, "co-")
  {
    var lower := "vice president";
    MissingCharNotContained(lower, "co-president", '-');
    assert OccursAt(lower, "president", 5);
    MissingCharNotContained(lower, "co-", '-');
  }

  lemma DirectorExample()
    ensures TitlePriority(Some("Director of Events")) == 3
  {
    assert ToLower("Director of Events") == "director of events";
    DirectorWords();
  }

  lemma DirectorWords()
    ensures var lower := "director of events";
      !Contains(lower, "co-president") && !Contains(lower, "president")
      && Contains(lower, "director") && !Contains(lower, "co-")
  {
    var lower := "director of events";
    MissingCharNotContained(lower, "co-president", '-');
    MissingCharNotContained(lower, "president", 'p');
    assert OccursAt(lower, "director", 0);
    MissingCharNotContained(lower, "co-", '-');
  }

  lemma CoDirectorExample()
    ensures TitlePriority(Some("Co-Director of Marketing")) == 4
  {
    assert ToLower("Co-Director of Marketing") == "co-director of marketing";
    CoDirectorWords();
  }

  lemma CoDirectorWords()
    ensures var lower := "co-director of marketing";
      !Contains(lower, "co-president") && !Contains(lower, "president")
      && Contains(lower, "co-") && Contains(lower, "co-director")
  {
    var lower := "co-director of marketing";
    MissingCharNotContained(lower, "co-president", 'p');
    MissingCharNotContained(lower, "president", 'p');
    assert OccursAt(lower, "co-", 0);
    assert OccursAt(lower, "co-director", 0);
  }

  lemma OtherTitleExample()
    ensures TitlePriority(Some("Treasurer")) == 5
  {
    assert ToLower("Treasurer") == "treasurer";
    var lower := "treasurer";
    MissingCharNotContained(lower, "co-president", '-');
    MissingCharNotContained(lower, "president", 'p');
    MissingCharNotContained(lower, "director", 'd');
    MissingCharNotContained(lower, "co-director", '-');
  }

  /** The tie-break key: the lowercased title, `''` when there is none. */
  function SortKey(m: Member): string {
    ToLower(m.title.GetOr(""))
  }

  /** Code-point lexicographic order, standing in for `localeCompare`. */
  predicate LexLe(a: string, b: string) {
    a == [] || (b != [] && (a[0] < b[0] || (a[0] == b[0] && LexLe(a[1..], b[1..]))))
  }

  lemma {:induction false} LexLeTotal(a: string, b: string)
    ensures LexLe(a, b) || LexLe(b, a)
  {
    if a != [] && b != [] && a[0] == b[0] {
      LexLeTotal(a[1..], b[1..]);
    }
  }

  lemma {:induction false} LexLeTransitive(a: string, b: string, c: string)
    requires LexLe(a, b) && LexLe(b, c)
    ensures LexLe(a, c)
  {
    if a != [] && b != [] && c != [] && a[0] == b[0] && b[0] == c[0] {
      LexLeTransitive(a[1..], b[1..], c[1..]);
    }
  }

  lemma {:induction false} LexLeAntisymmetric(a: string, b: string)
    requires LexLe(a, b) && LexLe(b, a)
    ensures a == b
  {
    if a != [] && b != [] {
      LexLeAntisymmetric(a[1..], b[1..]);
      assert a == [a[0]] + a[1..];
      assert b == [b[0]] + b[1..];
    }
  }

  /** The comparator as an order: `a` may come before `b`. */
  predicate BoardLe(a: Member, b: Member) {
    var pa := TitlePriority(a.title);
    var pb := TitlePriority(b.title);
    pa < pb || (pa == pb && LexLe(SortKey(a), SortKey(b)))
  }

  /** The comparator orders any two members one way or the other. */
  lemma BoardLeTotal(a: Member, b: Member)
    ensures BoardLe(a, b) || BoardLe(b, a)
  {
    LexLeTotal(SortKey(a), SortKey(b));
  }

  /** The comparator is consistent: its order is transitive. */
  lemma BoardLeTransitive(a: Member, b: Member, c: Member)
    requires BoardLe(a, b) && BoardLe(b, c)
    ensures BoardLe(a, c)
  {
    if TitlePriority(a.title) == TitlePriority(b.title) == TitlePriority(c.title) {
      LexLeTransitive(SortKey(a), SortKey(b), SortKey(c));
    }
  }

  /** Two members the comparator ranks both ways have the same priority and the same key. */
  lemma BoardLeTies(a: Member, b: Member)
    requires BoardLe(a, b) && BoardLe(b, a)
    ensures TitlePriority(a.title) == TitlePriority(b.title) && SortKey(a) == SortKey(b)
  {
    LexLeAntisymmetric(SortKey(a), SortKey(b));
  }

  predicate Sorted(ms: seq<Member>) {
    forall i, j :: 0 <= i < j < |ms| ==> BoardLe(ms[i], ms[j])
  }

  /** Puts `m` into the sorted list after the members that rank strictly before it and before the rest. */
  function Insert(m: Member, sorted: seq<Member>): (r: seq<Member>)
    ensures multiset(r) == multiset(sorted) + multiset{m}
  {
    if sorted == [] then [m]
    else
      assert sorted == [sorted[0]] + sorted[1..];
      if BoardLe(sorted[0], m) && !BoardLe(m, sorted[0]) then [sorted[0]] + Insert(m, sorted[1..])
      else [m] + sorted
  }

  lemma {:induction false} InsertSorted(m: Member, sorted: seq<Member>)
    requires Sorted(sorted)
    ensures Sorted(Insert(m, sorted))
  {
    if sorted != [] {
      if BoardLe(sorted[0], m) && !BoardLe(m, sorted[0]) {
        InsertSorted(m, sorted[1..]);
        var r := Insert(m, sorted);
        var rest := Insert(m, sorted[1..]);
        assert r == [sorted[0]] + rest;
        forall j | 0 < j < |r|
          ensures BoardLe(r[0], r[j])
        {
          assert r[j] in multiset(rest);
          assert r[j] == m || r[j] in multiset(sorted[1..]);
          if r[j] != m {
            var k :| 0 <= k < |sorted[1..]| && sorted[1..][k] == r[j];
            assert sorted[k + 1] == r[j];
          }
        }
      } else {
        BoardLeTotal(sorted[0], m);
        var r := Insert(m, sorted);
        forall i, j | 0 <= i < j < |r|
          ensures BoardLe(r[i], r[j])
        {
          if i == 0 && j > 1 {
            BoardLeTransitive(m, sorted[0], sorted[j - 1]);
          } else if i > 0 {
            assert r[i] == sorted[i - 1] && r[j] == sorted[j - 1];
          }
        }
      }
    }
  }

  /** The members ordered by the board comparator, by insertion. */
  function SortBoard(ms: seq<Member>): (r: seq<Member>)
    ensures multiset(r) == multiset(ms)
  {
    if ms == [] then []
    else
      assert ms == [ms[0]] + ms[1..];
      Insert(ms[0], SortBoard(ms[1..]))
  }

  /** The sorted list is ordered by priority, then by lowercased title, and holds exactly the fetched members. */
  lemma {:induction false} SortBoardCorrect(ms: seq<Member>)
    ensures Sorted(SortBoard(ms))
    ensures multiset(SortBoard(ms)) == multiset(ms) && |SortBoard(ms)| == |ms|
    ensures forall i, j :: 0 <= i < j < |SortBoard(ms)| ==>
              TitlePriority(SortBoard(ms)[i].title) <= TitlePriority(SortBoard(ms)[j].title)
  {
    if ms != [] {
      SortBoardCorrect(ms[1..]);
      InsertSorted(ms[0], SortBoard(ms[1..]));
    }
    assert |multiset(SortBoard(ms))| == |multiset(ms)|;
  }

  /** Untitled members come after every titled one. */
  lemma UntitledLast(ms: seq<Member>, i: int, j: int)
    requires 0 <= i < j < |SortBoard(ms)|
    requires SortBoard(ms)[i].title.None?
    ensures TitlePriority(SortBoard(ms)[j].title) == Untitled
  {
    SortBoardCorrect(ms);
  }
}
