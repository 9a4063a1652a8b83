/** The study-group entity: four values fixed at construction and a member list
    that is changed in place. */
module Models {
  import opened Lists

  /** A `DateTime`, kept as its tick count; the entity does no date arithmetic.
      `default(DateTime)` is the tick count 0. */
  type DateTime = int

  const DefaultDateTime: DateTime := 0

  /** The subject enumeration. Its declaration is not part of this model; the
      three named values are the ones the unit tests use. A C# enum variable may
      hold any value of its underlying integer type (a cast such as
      `(Subject)999` compiles), which `Undeclared` stands for: its `code`
      ranges only over values that name no declared member (a cast of a declared
      member's value is that member, not `Undeclared`), and the bound of the
      enum's 32-bit underlying type is not modelled. Nothing in the entity
      compares subjects. */
  datatype Subject = Math | Physics | Chemistry | Undeclared(code: int)

  /** A study group. `User` is the member type, compared with its own `==`. */
  class StudyGroup<User(==)> {
    const StudyGroupId: int
    const Name: string
    const Subject: Subject
    const CreateDate: DateTime
    var Users: seq<User>

    /** The primary constructor: every argument is stored as given, with no
        check on the name's length or on the subject, so every combination of
        arguments yields a group. */
    constructor (studyGroupId: int, name: string, subject: Subject, createDate: DateTime, users: seq<User>)
      ensures StudyGroupId == studyGroupId && Name == name && Subject == subject
      ensures CreateDate == createDate
      ensures createDate != DefaultDateTime ==> CreateDate != DefaultDateTime
      ensures Users == users
    {
      StudyGroupId := studyGroupId;
      Name := name;
      Subject := subject;
      CreateDate := createDate;
      Users := users;
    }

    /** Appends `user`, whether or not it is already a member. */
    method AddUser(user: User)
      modifies this
      ensures Users == old(Users) + [user]
      ensures |Users| == |old(Users)| + 1
      ensures multiset(Users)[user] == multiset(old(Users))[user] + 1
    {
      Users := Users + [user];
    }

    /** Deletes the first member equal to `user`; does nothing, and reports no
        error, when there is none. */
    method RemoveUser(user: User)
      modifies this
      ensures Users == RemoveFirst(old(Users), user)
      ensures user !in old(Users) ==> Users == old(Users)
      ensures user in old(Users) ==> |Users| == |old(Users)| - 1
      ensures forall i :: IsFirstIndex(old(Users), user, i) ==> Users == old(Users)[..i] + old(Users)[i + 1..]
      ensures multiset(Users) == multiset(old(Users)) - multiset{user}
    {
      RemoveFirstMultiset(Users, user);
      var i := IndexOf(Users, user);
      if i != -1 {
        RemoveFirstAt(Users, user, i);
        Users := Users[..i] + Users[i + 1..];
      }
    }
  }

  /** A client of the entity: adding a user who is not a member and then
      removing that user leaves the member list as it was; adding one who is
      already a member and removing again leaves the list with the first copy
      gone and the new one at the end. The four fixed values are constants. */
  method AddThenRemoveUser<User(==)>(g: StudyGroup<User>, u: User)
    modifies g
    ensures u !in old(g.Users) ==> g.Users == old(g.Users)
    ensures u in old(g.Users) ==> g.Users == RemoveFirst(old(g.Users), u) + [u]
  {
    ghost var before := g.Users;
    g.AddUser(u);
    g.RemoveUser(u);
    if u !in before {
      AddThenRemove(before, u);
    } else {
      AddThenRemovePresent(before, u);
    }
  }
}
