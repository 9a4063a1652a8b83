# StudyGroup entity, in Dafny

This project models the `StudyGroup` domain entity of a small study-group
management API. A study group has an identity, a name, a subject and a creation
date, all fixed when it is constructed, and a member list that two operations
change in place: `AddUser` appends a user, and `RemoveUser` deletes the first
member equal to the user, or does nothing when there is none.

- `lists.dfy` (module `Lists`) gives the meaning of the two .NET list operations
  the entity uses: `RemoveFirst` is the reference definition of
  `List<T>.Remove`, and `IndexOf` is the linear search it performs. The lemmas
  there prove what removal does: which element goes, what order the rest keep,
  and the add-then-remove round trip.
- `study_group.dfy` (module `Models`) holds the `StudyGroup` class. The four
  get-only properties are `const` fields and the member list is a `seq` field.
  The constructor and both methods state the whole new state.

The code and its unit tests disagree about validation. The unit tests
expect the constructor to reject a name shorter than 5 or longer than 30
characters, and to reject a subject outside Math, Physics and Chemistry. The
constructor as written checks neither. The model follows the code: the
constructor has no precondition and accepts every combination of arguments.

`DateTime` is kept as its tick count (an `int`), and `default(DateTime)` is
tick 0; the entity does no date arithmetic. `User` is a type parameter
compared with `==`, which stands for the default equality comparer that
`List<T>.Remove` uses.

## Model

| member | source | states |
|---|---|---|
| Models.StudyGroup.constructor | Application/Models/StudyGroup.cs:3-18 | has no precondition, so every name, subject and date yields a group; each of `StudyGroupId`, `Name`, `Subject`, `CreateDate` and `Users` equals its argument, and a non-default date is not replaced by the default |
| Models.StudyGroup.AddUser | Application/Models/StudyGroup.cs:20-23 | the new member list is the old one followed by `user`; its length grows by one and the count of `user` grows by one, so a user already present appears one more time than before |
| Models.StudyGroup.RemoveUser | Application/Models/StudyGroup.cs:25-28 | the new member list is `RemoveFirst` of the old one; an absent user leaves it unchanged, with no error; a present user's first occurrence `i` is cut out (`old[..i] + old[i+1..]`), the length drops by one, and exactly one copy of `user` leaves the multiset of members |
| Models.AddThenRemoveUser | Application/Models/StudyGroup.cs:20-28 | calling `AddUser(u)` then `RemoveUser(u)` on a group restores its member list when `u` was not a member; when `u` was a member, the earlier copy is removed and the new one stays at the end |
| Lists.RemoveFirst | Application/Models/StudyGroup.cs:27 | removing an absent element returns the sequence unchanged; removing a present one shortens it by exactly one |
| Lists.RemoveFirstMultiset | Application/Models/StudyGroup.cs:27 | removal takes away exactly one copy of the element when there is one and leaves every other element's count unchanged |
| Lists.RemoveFirstAt | Application/Models/StudyGroup.cs:27 | when `i` is the first index of `x`, removal yields `s[..i] + s[i+1..]`: only the first occurrence goes and the other elements keep their order |
| Lists.AddThenRemove | Application/Models/StudyGroup.cs:20-28 | for `x` not in `s`, removing `x` from `s + [x]` gives back `s` |
| Lists.AddThenRemovePresent | Application/Models/StudyGroup.cs:20-28 | for `x` in `s`, removing `x` from `s + [x]` gives `RemoveFirst(s, x) + [x]`: the earlier copy goes and the new one sits at the end, so the round trip restores a list that already held `x` only when every element after its first `x` is `x` |
| Lists.IndexOf | Application/Models/StudyGroup.cs:27 | returns -1 exactly when `x` does not occur in `s`, and otherwise the index of the first occurrence of `x` |

`StudyGroupId`, `Name`, `Subject` and `CreateDate` are declared `const`, so
neither `AddUser` nor `RemoveUser` can change them.

## Left out

- Name-length and subject validation: the constructor in
  Application/Models/StudyGroup.cs:3-18 performs none, although the unit tests
  (TestAutomation/Tests/UnitTests.cs:19-27, 42-53) expect an `ArgumentException`.
  The model follows the code.
- Models.StudyGroup.constructor, Models.StudyGroup.AddUser,
  Models.StudyGroup.RemoveUser: null arguments and the list's capacity are not
  modelled. In the source, the constructor stores `name` and `users` without a
  null check, so a group built with a null `users` list throws a
  `NullReferenceException` on `AddUser` and `RemoveUser`; the model's `string`
  and `seq` cannot be null, so it assumes a non-null name and list, as the
  non-nullable parameter types declare. A `seq` is also unbounded, so the
  failure of `List<T>.Add` when the list cannot grow any further is not
  modelled, and neither method has a failure path.
- Aliasing of the member list: in the source, `Users` is the very list object
  passed to the constructor, so changes through the group are visible to whoever
  holds that list, and the reverse. The model copies the list into a `seq`
  field, so it does not capture that sharing.
- `Subject` enumeration: its declaration is not part of this model. The three
  named values come from the unit tests, and `Undeclared` stands for any other
  integer an enum variable can hold.
- `User`: its declaration is not part of this model. Whether its equality is
  reference equality or an overridden `Equals` cannot be seen, so `==` stands
  for whichever the default comparer uses.
- `StudyGroupController`: every action awaits one repository call and wraps the
  result in an HTTP result. It is asynchronous framework plumbing with no logic.
  In particular, `CreateStudyGroup` never asks whether the user already has a
  group for the subject, so no duplicate-subject rule is modelled.
- `IStudyGroupRepository`: an interface with no implementation, so searching,
  sorting by date, joining, leaving and the duplicate check have no behaviour
  to model.
- The test harness in TestAutomation/Tests: mocks and assertions, not product
  logic.
