/** The students table as a value: the records, the `max + 1` numbering rule, lookup by id,
    the partial update of one record and the removal of one record, with the invariants the
    table keeps under them. */
module StudentTable {
  import opened Wrappers
  import opened Fields

  /** One student record; `rollNumber` is the source's `RollNumber`. */
  datatype Student = Student(id: int, name: string, rollNumber: int, email: string, grade: string)

  /** The three records the table holds when the process starts. */
  function Seed(): (s: seq<Student>)
    ensures |s| == 3 && Wellformed(s)
    ensures forall k :: 0 <= k < |s| ==> s[k].id == k + 1
  {
    [ Student(1, "Tommy", 1, "tommy@email.com", "A"),
      Student(2, "Pluto", 2, "pluto@email.com", "B+"),
      Student(3, "Sundae", 3, "sundae@email.com", "A-") ]
  }

  // ---------------------------------------------------------------------------
  // Invariants of the table

  /** No two records share an id. */
  ghost predicate IdsDistinct(s: seq<Student>) {
    forall j, k :: 0 <= j < k < |s| ==> s[j].id != s[k].id
  }

  /** Every record's roll number equals its id. */
  ghost predicate RollsMatchIds(s: seq<Student>) {
    forall k :: 0 <= k < |s| ==> s[k].rollNumber == s[k].id
  }

  /** Every id is at least 1. */
  ghost predicate IdsPositive(s: seq<Student>) {
    forall k :: 0 <= k < |s| ==> s[k].id >= 1
  }

  ghost predicate Wellformed(s: seq<Student>) {
    IdsDistinct(s) && RollsMatchIds(s) && IdsPositive(s)
  }

  // ---------------------------------------------------------------------------
  // Numbering: `Math.max(...values, 0) + 1`

  function Ids(s: seq<Student>): (r: seq<int>)
    ensures |r| == |s| && forall k :: 0 <= k < |s| ==> r[k] == s[k].id
  {
    seq(|s|, k requires 0 <= k < |s| => s[k].id)
  }

  function Rolls(s: seq<Student>): (r: seq<int>)
    ensures |r| == |s| && forall k :: 0 <= k < |s| ==> r[k] == s[k].rollNumber
  {
    seq(|s|, k requires 0 <= k < |s| => s[k].rollNumber)
  }

  /** `Math.max(...xs, 0)`: the largest of the values and 0. */
  function MaxOrZero(xs: seq<int>): (m: int)
    ensures 0 <= m
    ensures forall k :: 0 <= k < |xs| ==> xs[k] <= m
    ensures m == 0 || m in xs
  {
    if xs == [] then 0
    else
      var rest := MaxOrZero(xs[..|xs| - 1]);
      if xs[|xs| - 1] > rest then xs[|xs| - 1] else rest
  }

  /** The id a newly created record receives: 1 on an empty table, otherwise one more than the
      largest id (or 1 if no id is positive). */
  function NextId(s: seq<Student>): (r: int)
    ensures r >= 1
    ensures forall k :: 0 <= k < |s| ==> s[k].id < r
    ensures r == 1 || exists k :: 0 <= k < |s| && s[k].id == r - 1
  {
    MaxOrZero(Ids(s)) + 1
  }

  /** The roll number a newly created record receives, by the same rule over roll numbers. */
  function NextRoll(s: seq<Student>): (r: int)
    ensures r >= 1
    ensures forall k :: 0 <= k < |s| ==> s[k].rollNumber < r
    ensures r == 1 || exists k :: 0 <= k < |s| && s[k].rollNumber == r - 1
  {
    MaxOrZero(Rolls(s)) + 1
  }

  /** The record that create appends for the given (already validated) field values. */
  function NewStudent(s: seq<Student>, name: string, email: string, grade: string): Student {
    Student(NextId(s), name, NextRoll(s), email, grade)
  }

  // ---------------------------------------------------------------------------
  // Lookup: `s.id === parseInt(req.params.id)`

  /** Whether a record matches a parsed path id; `None` (NaN) matches nothing. */
  predicate HasId(st: Student, id: Option<int>) {
    id.Some? && st.id == id.value
  }

  /** `findIndex`: the index of the first record with the id, or -1 when there is none. */
  function FindIndex(s: seq<Student>, id: Option<int>): (r: int)
    ensures -1 <= r < |s|
    ensures r == -1 <==> forall k :: 0 <= k < |s| ==> !HasId(s[k], id)
    ensures 0 <= r ==> HasId(s[r], id) && forall k :: 0 <= k < r ==> !HasId(s[k], id)
  {
    if s == [] then -1
    else if HasId(s[0], id) then 0
    else
      var k := FindIndex(s[1..], id);
      if k == -1 then -1 else k + 1
  }

  /** `find`: the first record with the id, if any. */
  function Find(s: seq<Student>, id: Option<int>): (r: Option<Student>)
    ensures r.Some? <==> exists k :: 0 <= k < |s| && HasId(s[k], id)
    ensures r.Some? ==> r.value in s && HasId(r.value, id)
    ensures r.Some? ==>
      exists k :: (0 <= k < |s| && r.value == s[k] && HasId(s[k], id) &&
                   forall j :: 0 <= j < k ==> !HasId(s[j], id))
    ensures id.None? ==> r == None
  {
    var i := FindIndex(s, id);
    if i == -1 then None else Some(s[i])
  }

  // ---------------------------------------------------------------------------
  // Partial update and removal

  /** The record after update: each truthy field overwrites the stored value, every other
      field, and the id and roll number, keep theirs. */
  function Patch(st: Student, name: Field, email: Field, grade: Field): (r: Student)
    ensures r.id == st.id && r.rollNumber == st.rollNumber
    ensures Truthy(name) ==> r.name == name.value
    ensures !Truthy(name) ==> r.name == st.name
    ensures Truthy(email) ==> r.email == email.value
    ensures !Truthy(email) ==> r.email == st.email
    ensures Truthy(grade) ==> r.grade == grade.value
    ensures !Truthy(grade) ==> r.grade == st.grade
  {
    var st1 := if Truthy(name) then st.(name := name.value) else st;
    var st2 := if Truthy(email) then st1.(email := email.value) else st1;
    if Truthy(grade) then st2.(grade := grade.value) else st2
  }

  /** `splice(i, 1)`: the table without its i-th record, the others in their old order. */
  function RemoveAt(s: seq<Student>, i: int): (r: seq<Student>)
    requires 0 <= i < |s|
    ensures |r| == |s| - 1
    ensures forall k :: 0 <= k < i ==> r[k] == s[k]
    ensures forall k :: i <= k < |r| ==> r[k] == s[k + 1]
  {
    s[..i] + s[i + 1..]
  }
}
