/** What the students table promises across operations: the invariants create, update and
    delete keep, how the next id moves, and what a lookup sees after each of them. */
module TableLemmas {
  import opened Wrappers
  import opened Fields
  import opened StudentTable

  // ---------------------------------------------------------------------------
  // Numbering

  /** Where every roll number equals its id, the two `max + 1` rules give the same number. */
  lemma {:induction false} NextRollIsNextId(s: seq<Student>)
    requires RollsMatchIds(s)
    ensures NextRoll(s) == NextId(s)
  {
    assert Rolls(s) == Ids(s);
  }

  /** Appending a value above the current maximum makes it the new maximum. */
  lemma {:induction false} MaxOrZeroAppendAbove(xs: seq<int>, v: int)
    requires v > MaxOrZero(xs)
    ensures MaxOrZero(xs + [v]) == v
  {
    assert (xs + [v])[..|xs|] == xs;
  }

  /** Each create hands out exactly one more than the previous create: consecutive new ids
      are strictly increasing. */
  lemma {:induction false} CreateAdvancesNextId(s: seq<Student>, name: string, email: string, grade: string)
    ensures NextId(s + [NewStudent(s, name, email, grade)]) == NextId(s) + 1
  {
    var x := NewStudent(s, name, email, grade);
    assert Ids(s + [x]) == Ids(s) + [x.id];
    MaxOrZeroAppendAbove(Ids(s), x.id);
  }

  /** Update keeps every id, so it does not move the next id. */
  lemma {:induction false} UpdateKeepsNextId(s: seq<Student>, i: int, name: Field, email: Field, grade: Field)
    requires 0 <= i < |s|
    ensures NextId(s[i := Patch(s[i], name, email, grade)]) == NextId(s)
  {
    assert Ids(s[i := Patch(s[i], name, email, grade)]) == Ids(s);
  }

  /** Delete never raises the next id. */
  lemma {:induction false} DeleteNeverRaisesNextId(s: seq<Student>, i: int)
    requires 0 <= i < |s|
    ensures NextId(RemoveAt(s, i)) <= NextId(s)
  {
    var r := RemoveAt(s, i);
    if NextId(r) != 1 {
      var k :| 0 <= k < |r| && r[k].id == NextId(r) - 1;
      assert r[k] == s[if k < i then k else k + 1];
    }
  }

  /** Ids are unique only among the records present: deleting the record a create just added
      and creating again hands out the same id a second time. */
  lemma {:induction false} IdReusedAfterDeletingNewest(s: seq<Student>, name: string, email: string, grade: string)
    ensures var s1 := s + [NewStudent(s, name, email, grade)];
            var i := FindIndex(s1, Some(NextId(s)));
            i == |s| && RemoveAt(s1, i) == s && NextId(RemoveAt(s1, i)) == NextId(s)
  {
    var s1 := s + [NewStudent(s, name, email, grade)];
    var i := FindIndex(s1, Some(NextId(s)));
    assert HasId(s1[|s|], Some(NextId(s)));
    assert forall k :: 0 <= k < |s| ==> s1[k] == s[k];
    assert i == |s|;
    assert RemoveAt(s1, i) == s;
  }

  // ---------------------------------------------------------------------------
  // Invariants kept

  /** Create keeps ids distinct and positive and every roll number equal to its id. */
  lemma {:induction false} CreatePreservesWellformed(s: seq<Student>, name: string, email: string, grade: string)
    requires Wellformed(s)
    ensures Wellformed(s + [NewStudent(s, name, email, grade)])
  {
    NextRollIsNextId(s);
  }

  /** Update keeps the invariants: it touches neither ids nor roll numbers. */
  lemma {:induction false} UpdatePreservesWellformed(s: seq<Student>, i: int, name: Field, email: Field, grade: Field)
    requires 0 <= i < |s| && Wellformed(s)
    ensures Wellformed(s[i := Patch(s[i], name, email, grade)])
  {
    var r := s[i := Patch(s[i], name, email, grade)];
    assert forall k :: 0 <= k < |s| ==> r[k].id == s[k].id && r[k].rollNumber == s[k].rollNumber;
  }

  /** Repeating an update with the same body changes nothing more: the partial update is
      idempotent. */
  lemma {:induction false} PatchIdempotent(st: Student, name: Field, email: Field, grade: Field)
    ensures Patch(Patch(st, name, email, grade), name, email, grade) == Patch(st, name, email, grade)
  {
    var p := Patch(st, name, email, grade);
    var q := Patch(p, name, email, grade);
    assert q.name == p.name && q.email == p.email && q.grade == p.grade;
  }

  /** Delete keeps the invariants. */
  lemma {:induction false} DeletePreservesWellformed(s: seq<Student>, i: int)
    requires 0 <= i < |s| && Wellformed(s)
    ensures Wellformed(RemoveAt(s, i))
  {
    var r := RemoveAt(s, i);
    forall j, k | 0 <= j < k < |r| ensures r[j].id != r[k].id {
      assert r[j] == s[if j < i then j else j + 1];
      assert r[k] == s[if k < i then k else k + 1];
    }
  }

  /** Delete removes exactly the one record: the old table is the new one plus that record. */
  lemma {:induction false} DeleteRemovesOneRecord(s: seq<Student>, i: int)
    requires 0 <= i < |s|
    ensures multiset(s) == multiset(RemoveAt(s, i)) + multiset{s[i]}
  {
    assert s == s[..i] + [s[i]] + s[i + 1..];
  }

  // ---------------------------------------------------------------------------
  // Lookup after each change

  /** A record just created is found by its new id. */
  lemma {:induction false} FindAfterCreate(s: seq<Student>, name: string, email: string, grade: string)
    ensures var x := NewStudent(s, name, email, grade);
            Find(s + [x], Some(x.id)) == Some(x)
  {
    var x := NewStudent(s, name, email, grade);
    var s1 := s + [x];
    assert HasId(s1[|s|], Some(x.id));
    assert forall k :: 0 <= k < |s| ==> s1[k] == s[k];
    assert FindIndex(s1, Some(x.id)) == |s|;
  }

  /** After an update the id finds the patched record. */
  lemma {:induction false} FindAfterUpdate(s: seq<Student>, id: Option<int>, name: Field, email: Field, grade: Field)
    requires FindIndex(s, id) != -1
    ensures var i := FindIndex(s, id);
            Find(s[i := Patch(s[i], name, email, grade)], id) == Some(Patch(s[i], name, email, grade))
  {
    var i := FindIndex(s, id);
    var r := s[i := Patch(s[i], name, email, grade)];
    assert HasId(r[i], id);
    assert forall k :: 0 <= k < i ==> r[k] == s[k];
    assert FindIndex(r, id) == i;
  }

  /** With distinct ids, once a record is deleted its id finds nothing. */
  lemma {:induction false} FindAfterDelete(s: seq<Student>, id: Option<int>)
    requires IdsDistinct(s) && FindIndex(s, id) != -1
    ensures Find(RemoveAt(s, FindIndex(s, id)), id) == None
  {
    var i := FindIndex(s, id);
    var r := RemoveAt(s, i);
    forall k | 0 <= k < |r| ensures !HasId(r[k], id) {
      assert r[k] == s[if k < i then k else k + 1];
    }
  }
}
