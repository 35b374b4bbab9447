/** Teacher roles. A teacher's `roles` column holds either an array of
    role names or a JSON text of one. The worker grants the administrative
    endpoints to a teacher whose roles include "Admin.", "Coord.",
    "Administrativo" or "Administrador" (`ensureAdminOrCoord`); the teacher
    card lists the roles it can read as an array. `JSON.parse` is a
    parameter: `None` stands for the exception it throws. */
module Roles {
  import opened Wrappers
  import opened Strings
  import opened Json

  /** The teacher row the check reads: its id and its `roles` column. */
  datatype TeacherRow = TeacherRow(id: int, roles: Option<JsonValue>)

  const PrivilegedRoles: seq<string> := ["Admin.", "Coord.", "Administrativo", "Administrador"]

  /** The teacher of the signed-in user: the row found by user id, else,
      when the user has an e-mail address, the row found by e-mail. */
  function FindTeacher(byUserId: Option<TeacherRow>, email: string, byEmail: Option<TeacherRow>): (me: Option<TeacherRow>)
    ensures byUserId.Some? ==> me == byUserId
    ensures byUserId.None? && email == "" ==> me.None?
    ensures byUserId.None? && email != "" ==> me == byEmail
  {
    if byUserId.None? && email != "" then byEmail else byUserId
  }

  /** The `roles` value the worker checks: an array column as it is, a
      non-empty text column parsed (a text that does not parse gives the
      empty array), anything else the empty array. */
  function WorkerRoles(me: Option<TeacherRow>, parse: string -> Option<JsonValue>): JsonValue
  {
    if me.None? || !Truthy(me.value.roles) then JArr([])
    else
      match me.value.roles.value
      case JArr(items) => JArr(items)
      case JStr(s) => (match parse(s) case None => JArr([]) case Some(p) => p)
      case _ => JArr([])
  }

  /** `roles.includes(name)`: element membership on an array, substring
      search on a string, and a `TypeError` on any other value. */
  function Includes(roles: JsonValue, name: string): Result<bool, string>
  {
    match roles
    case JArr(items) => Ok(JStr(name) in items)
    case JStr(s) => Ok(Contains(s, name))
    case _ => Err("TypeError: roles.includes is not a function")
  }

  /** `roles.includes(names[0]) || roles.includes(names[1]) || ...`. */
  function AnyIncludes(roles: JsonValue, names: seq<string>): Result<bool, string>
  {
    if names == [] then Ok(false)
    else
      match Includes(roles, names[0])
      case Err(e) => Err(e)
      case Ok(true) => Ok(true)
      case Ok(false) => AnyIncludes(roles, names[1..])
  }

  /** The check: `Ok(b)` is the answer, `Err` the exception it throws. */
  function EnsureAdminOrCoord(me: Option<TeacherRow>, parse: string -> Option<JsonValue>): Result<bool, string>
  {
    AnyIncludes(WorkerRoles(me, parse), PrivilegedRoles)
  }

  /** On an array or a string the short-circuit chain is the disjunction of
      the memberships; on anything else it throws. */
  lemma {:induction false} AnyIncludesMeaning(roles: JsonValue, names: seq<string>)
    ensures roles.JArr? && names != [] ==> AnyIncludes(roles, names) == Ok(exists n :: n in names && JStr(n) in roles.items)
    ensures roles.JStr? ==> AnyIncludes(roles, names) == Ok(exists n :: n in names && Contains(roles.s, n))
    ensures !roles.JArr? && !roles.JStr? && names != [] ==> AnyIncludes(roles, names).Err?
  {
    if names != [] {
      AnyIncludesMeaning(roles, names[1..]);
      if roles.JArr? && names[1..] == [] {
        assert AnyIncludes(roles, names[1..]) == Ok(false);
      }
    }
  }

  /** A teacher whose roles are an array is granted access exactly when the
      array holds one of the four privileged names. */
  lemma {:induction false} AdminByRoleArray(me: TeacherRow, items: seq<JsonValue>, parse: string -> Option<JsonValue>)
    requires me.roles == Some(JArr(items))
    ensures EnsureAdminOrCoord(Some(me), parse) == Ok(exists n :: n in PrivilegedRoles && JStr(n) in items)
  {
    AnyIncludesMeaning(JArr(items), PrivilegedRoles);
  }

  /** A text column holding a JSON array is read as that array. */
  lemma {:induction false} AdminByRoleText(me: TeacherRow, s: string, items: seq<JsonValue>, parse: string -> Option<JsonValue>)
    requires me.roles == Some(JStr(s)) && s != "" && parse(s) == Some(JArr(items))
    ensures EnsureAdminOrCoord(Some(me), parse) == Ok(exists n :: n in PrivilegedRoles && JStr(n) in items)
  {
    AnyIncludesMeaning(JArr(items), PrivilegedRoles);
  }

  /** No teacher, no roles, or a text that does not parse: access denied. */
  lemma {:induction false} AdminDenied(me: Option<TeacherRow>, parse: string -> Option<JsonValue>)
    requires me.None? || me.value.roles.None? || (me.value.roles.value.JStr? && parse(me.value.roles.value.s).None?)
    ensures EnsureAdminOrCoord(me, parse) == Ok(false)
  {
    AnyIncludesMeaning(JArr([]), PrivilegedRoles);
  }

  /** A text that parses to a JSON string is searched for the names as
      substrings, so "Coord.inador" grants access. */
  lemma {:induction false} AdminBySubstring(me: TeacherRow, s: string, t: string, parse: string -> Option<JsonValue>)
    requires me.roles == Some(JStr(s)) && s != "" && parse(s) == Some(JStr(t))
    ensures EnsureAdminOrCoord(Some(me), parse) == Ok(exists n :: n in PrivilegedRoles && Contains(t, n))
  {
    AnyIncludesMeaning(JStr(t), PrivilegedRoles);
  }

  /** A text that parses to a number, a boolean, null or an object makes
      the check throw. */
  lemma {:induction false} AdminThrows(me: TeacherRow, s: string, p: JsonValue, parse: string -> Option<JsonValue>)
    requires me.roles == Some(JStr(s)) && s != "" && parse(s) == Some(p) && !p.JArr? && !p.JStr?
    ensures EnsureAdminOrCoord(Some(me), parse).Err?
  {
    AnyIncludesMeaning(p, PrivilegedRoles);
  }

  /** The roles the teacher card lists: an array as it is, a text that
      parses to an array, otherwise none. */
  function CardRoles(roles: Option<JsonValue>, parse: string -> Option<JsonValue>): (r: seq<JsonValue>)
    ensures roles.Some? && roles.value.JArr? ==> r == roles.value.items
    ensures (roles.Some? && roles.value.JStr? && parse(roles.value.s).Some? && parse(roles.value.s).value.JArr?) ==>
              r == parse(roles.value.s).value.items
    ensures roles.None? || (!roles.value.JArr? && !roles.value.JStr?) ==> r == []
    ensures roles.Some? && roles.value.JStr? && (parse(roles.value.s).None? || !parse(roles.value.s).value.JArr?) ==> r == []
  {
    match roles
    case Some(JArr(items)) => items
    case Some(JStr(s)) => (match parse(s) case Some(JArr(items)) => items case _ => [])
    case _ => []
  }

  /** The card and the worker read the same list, except for a text that
      parses to something other than an array; the empty text reads as no
      roles in both because it does not parse. */
  lemma {:induction false} CardAgreesWithWorker(me: TeacherRow, parse: string -> Option<JsonValue>)
    requires parse("") == None
    requires me.roles.Some? && me.roles.value.JStr? && parse(me.roles.value.s).Some? ==> parse(me.roles.value.s).value.JArr?
    ensures (me.roles.Some? && (me.roles.value.JArr? || me.roles.value.JStr?)) ==>
              WorkerRoles(Some(me), parse) == JArr(CardRoles(me.roles, parse))
  {
  }
}
