/** The profile page: the signed-in user's card (initials, role label) and the
    edit form with submit and cancel. */
module Profile {
  import opened Wrappers
  import opened Text
  import opened Accounts

  datatype UserProfile = UserProfile(
    id: int,
    name: string,
    email: string,
    role: Role,
    createdAt: string,
    totalBorrowings: int,
    currentBorrowings: int,
    favoriteGenres: seq<string>)

  datatype FormData = FormData(
    name: string,
    email: string,
    currentPassword: string,
    newPassword: string,
    confirmPassword: string)

  /** The `name` attribute of an input, which says the field it edits. */
  datatype FormField = Name | Email | CurrentPassword | NewPassword | ConfirmPassword

  /** `handleInputChange`: the named field takes the typed value; the others stay. */
  function InputChange(f: FormData, field: FormField, value: string): (r: FormData)
    ensures r.name == (if field == Name then value else f.name)
    ensures r.email == (if field == Email then value else f.email)
    ensures r.currentPassword == (if field == CurrentPassword then value else f.currentPassword)
    ensures r.newPassword == (if field == NewPassword then value else f.newPassword)
    ensures r.confirmPassword == (if field == ConfirmPassword then value else f.confirmPassword)
  {
    match field
    case Name => f.(name := value)
    case Email => f.(email := value)
    case CurrentPassword => f.(currentPassword := value)
    case NewPassword => f.(newPassword := value)
    case ConfirmPassword => f.(confirmPassword := value)
  }

  /** The form as loaded or as a cancel leaves it: the user's name and e-mail,
      no passwords. */
  function FormFor(u: UserProfile): FormData {
    FormData(u.name, u.email, "", "", "")
  }

  /** The user after a submission: the form's name and e-mail, everything else kept. */
  function SubmitUser(u: UserProfile, f: FormData): (r: UserProfile)
    ensures r.name == f.name && r.email == f.email
    ensures r.(name := u.name, email := u.email) == u
  {
    u.(name := f.name, email := f.email)
  }

  /** The form after a submission: name and e-mail kept, passwords emptied. */
  function ClearPasswords(f: FormData): (r: FormData)
    ensures r.name == f.name && r.email == f.email
    ensures r.currentPassword == "" && r.newPassword == "" && r.confirmPassword == ""
  {
    f.(currentPassword := "", newPassword := "", confirmPassword := "")
  }

  /** After a submission the form is what the updated user would load, so a
      cancel right after changes nothing; submitting the loaded form changes
      no user field. */
  lemma SubmitThenCancel(u: UserProfile, f: FormData)
    ensures FormFor(SubmitUser(u, f)) == ClearPasswords(f)
    ensures SubmitUser(u, FormFor(u)) == u
    ensures ClearPasswords(FormFor(u)) == FormFor(u)
  {
  }

  /** The initials on the card. */
  function CardInitials(u: UserProfile): (r: string)
    ensures r == WordStarts(u.name, true)
  {
    InitialsAreWordStarts(u.name);
    Initials(u.name)
  }

  // ---------------------------------------------------------------------------
  // The page state

  class Page {
    var user: Option<UserProfile>
    var isEditing: bool
    var formData: FormData

    /** The mount effect: the profile is loaded and copied into the form. */
    constructor (profile: UserProfile)
      ensures user == Some(profile) && formData == FormFor(profile) && !isEditing
    {
      user := Some(profile);
      formData := FormFor(profile);
      isEditing := false;
    }

    method HandleInputChange(field: FormField, value: string)
      modifies this
      ensures formData == InputChange(old(formData), field, value)
      ensures user == old(user) && isEditing == old(isEditing)
    {
      formData := InputChange(formData, field, value);
    }

    /** "Modifier": edit mode starts; the user and the form stay as they are. */
    method HandleEdit()
      modifies this
      ensures isEditing && user == old(user) && formData == old(formData)
    {
      isEditing := true;
    }

    /** With a user: copy name and e-mail into it, leave edit mode and empty the
        password fields. Without one nothing happens. */
    method HandleSubmit()
      modifies this
      ensures old(user).Some? ==>
        && user == Some(SubmitUser(old(user).value, old(formData)))
        && !isEditing && formData == ClearPasswords(old(formData))
        && formData == FormFor(user.value)
      ensures old(user).None? ==> user == old(user) && isEditing == old(isEditing) && formData == old(formData)
    {
      if user.Some? {
        SubmitThenCancel(user.value, formData);
        user := Some(SubmitUser(user.value, formData));
        isEditing := false;
        formData := ClearPasswords(formData);
      }
    }

    /** With a user the form goes back to the user's values; edit mode ends in every case. */
    method HandleCancel()
      modifies this
      ensures old(user).Some? ==> formData == FormFor(old(user).value)
      ensures old(user).None? ==> formData == old(formData)
      ensures user == old(user) && !isEditing
    {
      if user.Some? {
        formData := FormFor(user.value);
      }
      isEditing := false;
    }
  }
}
