/** Account roles, shared by the user administration page and the profile page. */
module Accounts {

  datatype Role = Student | Admin {
    /** The string the record carries and the role dropdown compares with. */
    function Name(): string {
      match this
      case Student => "student"
      case Admin => "admin"
    }
  }

  /** The badge and profile label: "Administrateur" for an administrator,
      "Étudiant" for everyone else. */
  function RoleLabel(role: Role): (text: string)
    ensures text == "Administrateur" <==> role == Admin
    ensures text == "Étudiant" <==> role == Student
  {
    if role.Admin? then "Administrateur" else "Étudiant"
  }
}
