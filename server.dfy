/** The record store behind the HTTP handlers: the process-wide `students` and `users` tables,
    each handler as an operation on them, and the credential check of login. A handler's
    response is a status and, on success, the record it reports. */
module Server {
  import opened Wrappers
  import opened Fields
  import opened StudentTable
  import opened TableLemmas

  datatype Status = Ok | Created | BadRequest | Unauthorized | NotFound {
    /** The HTTP status code the handler sets. */
    function Code(): (c: int)
      ensures c in {200, 201, 400, 401, 404}
      ensures Ok? <==> c == 200
      ensures Created? <==> c == 201
      ensures BadRequest? <==> c == 400
      ensures Unauthorized? <==> c == 401
      ensures NotFound? <==> c == 404
    {
      match this
      case Ok => 200
      case Created => 201
      case BadRequest => 400
      case Unauthorized => 401
      case NotFound => 404
    }
  }

  /** A response: the status and the `data` of the envelope, if it carries one. */
  datatype Reply<T> = Reply(status: Status, data: Option<T>)

  /** A registered user; the password is not part of it, and the token and creation time are
      not modelled. */
  datatype User = User(id: int, email: string, name: string)

  /** The `data` and `count` of the list response. */
  datatype Listing = Listing(data: seq<Student>, count: int)

  /** The counted part of the stats response. */
  datatype Stats = Stats(totalStudents: int, totalUsers: int)

  /** User ids are 1, 2, ..., n in the order of registration. */
  ghost predicate UsersNumbered(u: seq<User>) {
    forall k :: 0 <= k < |u| ==> u[k].id == k + 1
  }

  const ADMIN_EMAIL: string := "admin@test.com"
  const ADMIN_PASSWORD: string := "password123"
  const ADMIN_NAME: string := "Admin User"

  /** Login: 400 unless both fields are truthy, 200 with the admin user only for the one
      hard-coded pair, 401 for anything else. It reads no table. */
  function Login(email: Field, password: Field): (r: Reply<User>)
    ensures r.status == BadRequest <==> !Truthy(email) || !Truthy(password)
    ensures r.status == Ok <==> email == Some(ADMIN_EMAIL) && password == Some(ADMIN_PASSWORD)
    ensures r.status == Unauthorized <==>
      Truthy(email) && Truthy(password) && !(email == Some(ADMIN_EMAIL) && password == Some(ADMIN_PASSWORD))
    ensures r.status == Ok ==> r.data == Some(User(1, ADMIN_EMAIL, ADMIN_NAME))
    ensures r.status != Ok ==> r.data == None
  {
    if !Truthy(email) || !Truthy(password) then Reply(BadRequest, None)
    else if email.value == ADMIN_EMAIL && password.value == ADMIN_PASSWORD then
      Reply(Ok, Some(User(1, email.value, ADMIN_NAME)))
    else Reply(Unauthorized, None)
  }

  class Store {
    var students: seq<Student>
    var users: seq<User>

    /** The invariant every handler keeps. */
    ghost predicate Valid()
      reads this
    {
      Wellformed(students) && UsersNumbered(users)
    }

    /** Process start: the three seeded students and no users. */
    constructor ()
      ensures Valid()
      ensures students == Seed() && users == []
    {
      students := Seed();
      users := [];
    }

    /** GET /api/students: the whole table, with `count` its length. */
    function ListStudents(): (r: Listing)
      reads this
      ensures r.data == students && r.count == |r.data|
    {
      Listing(students, |students|)
    }

    /** GET /api/students/:id: the record with the id, or 404 when no record has it. */
    function GetStudent(id: Option<int>): (r: Reply<Student>)
      reads this
      ensures r.status == Ok || r.status == NotFound
      ensures r.status == Ok <==> exists k :: 0 <= k < |students| && HasId(students[k], id)
      ensures r.status == Ok ==> r.data.Some? && r.data.value in students && HasId(r.data.value, id)
      ensures r.status == Ok ==>
        exists k :: (0 <= k < |students| && r.data.value == students[k] && HasId(students[k], id) &&
                     forall j :: 0 <= j < k ==> !HasId(students[j], id))
      ensures r.status == NotFound ==> r.data == None
    {
      match Find(students, id)
      case None => Reply(NotFound, None)
      case Some(st) => Reply(Ok, Some(st))
    }

    /** GET /api/stats: the sizes of both tables. */
    function GetStats(): (r: Stats)
      reads this
      ensures r.totalStudents == |students| && r.totalUsers == |users|
    {
      Stats(|students|, |users|)
    }

    /** POST /api/students: 400 with no change unless name, email and grade are all truthy;
        otherwise 201 and exactly one record appended, numbered by `max + 1`. */
    method CreateStudent(name: Field, email: Field, grade: Field) returns (r: Reply<Student>)
      modifies this
      ensures users == old(users)
      ensures !(Truthy(name) && Truthy(email) && Truthy(grade)) ==>
        r == Reply(BadRequest, None) && students == old(students)
      ensures Truthy(name) && Truthy(email) && Truthy(grade) ==>
        var x := NewStudent(old(students), name.value, email.value, grade.value);
        r == Reply(Created, Some(x)) && students == old(students) + [x]
      ensures old(Valid()) ==> Valid()
    {
      if !Truthy(name) || !Truthy(email) || !Truthy(grade) {
        return Reply(BadRequest, None);
      }
      var newStudent := Student(MaxOrZero(Ids(students)) + 1, name.value,
                                MaxOrZero(Rolls(students)) + 1, email.value, grade.value);
      if Valid() {
        CreatePreservesWellformed(students, name.value, email.value, grade.value);
      }
      students := students + [newStudent];
      r := Reply(Created, Some(newStudent));
    }

    /** PUT /api/students/:id: 404 with no change when no record has the id; otherwise the
        truthy fields overwrite that record's values and nothing else changes. */
    method UpdateStudent(id: Option<int>, name: Field, email: Field, grade: Field) returns (r: Reply<Student>)
      modifies this
      ensures users == old(users) && |students| == |old(students)|
      ensures FindIndex(old(students), id) == -1 ==>
        r == Reply(NotFound, None) && students == old(students)
      ensures var i := FindIndex(old(students), id);
        i != -1 ==>
          students == old(students)[i := Patch(old(students)[i], name, email, grade)] &&
          r == Reply(Ok, Some(students[i]))
      ensures old(Valid()) ==> Valid()
    {
      var i := FindIndex(students, id);
      if i == -1 {
        return Reply(NotFound, None);
      }
      var st := students[i];
      if Truthy(name) { st := st.(name := name.value); }
      if Truthy(email) { st := st.(email := email.value); }
      if Truthy(grade) { st := st.(grade := grade.value); }
      if Valid() {
        UpdatePreservesWellformed(students, i, name, email, grade);
      }
      students := students[i := st];
      r := Reply(Ok, Some(st));
    }

    /** DELETE /api/students/:id: 404 with no change when no record has the id; otherwise that
        record is removed and returned, and the others keep their order. */
    method DeleteStudent(id: Option<int>) returns (r: Reply<Student>)
      modifies this
      ensures users == old(users)
      ensures FindIndex(old(students), id) == -1 ==>
        r == Reply(NotFound, None) && students == old(students)
      ensures var i := FindIndex(old(students), id);
        i != -1 ==>
          r == Reply(Ok, Some(old(students)[i])) && students == RemoveAt(old(students), i)
      ensures old(Valid()) ==> Valid()
    {
      var i := FindIndex(students, id);
      if i == -1 {
        return Reply(NotFound, None);
      }
      var deleted := students[i];
      if Valid() {
        DeletePreservesWellformed(students, i);
      }
      students := students[..i] + students[i + 1..];
      r := Reply(Ok, Some(deleted));
    }

    /** POST /api/register: 400 with no change unless email, password and name are all truthy;
        otherwise 201 and a user numbered `|users| + 1` appended, without the password. */
    method Register(email: Field, password: Field, name: Field) returns (r: Reply<User>)
      modifies this
      ensures students == old(students)
      ensures !(Truthy(email) && Truthy(password) && Truthy(name)) ==>
        r == Reply(BadRequest, None) && users == old(users)
      ensures Truthy(email) && Truthy(password) && Truthy(name) ==>
        var u := User(|old(users)| + 1, email.value, name.value);
        r == Reply(Created, Some(u)) && users == old(users) + [u]
      ensures old(Valid()) ==> Valid()
    {
      if !Truthy(email) || !Truthy(password) || !Truthy(name) {
        return Reply(BadRequest, None);
      }
      var newUser := User(|users| + 1, email.value, name.value);
      users := users + [newUser];
      r := Reply(Created, Some(newUser));
    }
  }

  /** Two runs from the seed: a create gets id and roll number 4, and deleting id 2 returns
      Pluto and leaves two records. */
  method SeedScenarios() {
    var store := new Store();
    var created := store.CreateStudent(Some("X"), Some("x@x.com"), Some("B"));
    assert Ids(Seed()) == [1, 2, 3];
    assert Rolls(Seed()) == [1, 2, 3];
    assert created == Reply(Created, Some(Student(4, "X", 4, "x@x.com", "B")));

    var other := new Store();
    assert FindIndex(other.students, Some(2)) == 1;
    var deleted := other.DeleteStudent(Some(2));
    assert deleted.data.Some? && deleted.data.value.name == "Pluto";
    assert |other.ListStudents().data| == 2;
  }
}
