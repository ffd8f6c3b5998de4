/** The client-side guards of the registration, profile-completion and
    profile-edit forms, and the profile row each accepted form writes.
    Every guard runs before any backend call; a rejected form leaves the
    tables untouched. */
module Forms {
  import opened Rows
  import Age

  const MinPasswordLength: nat := 6
  const AdultAge: int := 18

  /** The toast each guard shows when it rejects the form. */
  datatype FormError =
    | PasswordMismatch | PasswordTooShort | EmailTaken | SignUpFailed
    | Underage | SeekingMissing | AgeNotConfirmed | LoginFailed

  datatype Checked<T> = Accepted(value: T) | Rejected(error: FormError)

  /** `handleRegister`: the confirmation is compared first, then the length.
      Password length is counted in characters (see README on UTF-16). */
  function CheckRegistration(password: string, confirmation: string): (r: Checked<()>)
    ensures r.Accepted? <==> password == confirmation && |password| >= MinPasswordLength
    ensures r == Rejected(PasswordMismatch) <==> password != confirmation
    ensures r == Rejected(PasswordTooShort) <==>
              password == confirmation && |password| < MinPasswordLength
  {
    if password != confirmation then Rejected(PasswordMismatch)
    else if |password| < MinPasswordLength then Rejected(PasswordTooShort)
    else Accepted(())
  }

  /** `handleLogin`: the adult checkbox is tested before any backend
      call; `signedIn` is the user the authentication service returns,
      `None` when the credentials are refused. */
  function Login(ageConfirmed: bool, signedIn: Option<UserId>): (r: Checked<UserId>)
    ensures r == Rejected(AgeNotConfirmed) <==> !ageConfirmed
    ensures r == Rejected(LoginFailed) <==> ageConfirmed && signedIn.None?
    ensures r.Accepted? <==> ageConfirmed && signedIn.Some?
    ensures r.Accepted? ==> r.value == signedIn.value
  {
    if !ageConfirmed then Rejected(AgeNotConfirmed)
    else if signedIn.None? then Rejected(LoginFailed)
    else Accepted(signedIn.value)
  }

  /** The number of `profiles` rows holding `email`. */
  function CountEmail(table: seq<Profile>, email: string): (n: nat)
    ensures n <= |table|
    ensures n == 0 <==> forall i :: 0 <= i < |table| ==> table[i].email != email
    decreases |table|
  {
    if table == [] then 0
    else (if table[0].email == email then 1 else 0) + CountEmail(table[1..], email)
  }

  /** The first row of a new user: only id and email are set. */
  function NewProfile(id: UserId, email: string): Profile
  {
    Profile(id, email, "", None, "", "", "", "", "")
  }

  /** `handleRegister` and its effect on `profiles`. After the password
      guards, the lookup of an existing row by email uses `.single()`, which
      yields a row only when exactly one row matches; `lookupOk` says whether
      that query reached the table at all (when it fails its data is null and
      the e-mail counts as free). `signedUp` is the id the authentication
      service returns, `None` when sign-up fails. The source does not check
      the result of the insert: `rowStored` says whether the backend kept the
      row; registration succeeds either way. */
  function Register(table: seq<Profile>, email: string, password: string, confirmation: string,
                    lookupOk: bool, signedUp: Option<UserId>, rowStored: bool): (r: Checked<seq<Profile>>)
    ensures CheckRegistration(password, confirmation).Rejected? ==>
              r == Rejected(CheckRegistration(password, confirmation).error)
    ensures r == Rejected(EmailTaken) <==>
              CheckRegistration(password, confirmation).Accepted? && lookupOk && CountEmail(table, email) == 1
    ensures r == Rejected(SignUpFailed) <==>
              CheckRegistration(password, confirmation).Accepted? &&
              !(lookupOk && CountEmail(table, email) == 1) && signedUp.None?
    ensures r.Accepted? <==>
              CheckRegistration(password, confirmation).Accepted? &&
              !(lookupOk && CountEmail(table, email) == 1) && signedUp.Some?
    ensures r.Accepted? ==>
              && password == confirmation && |password| >= MinPasswordLength
              && r.value == table + (if rowStored then [NewProfile(signedUp.value, email)] else [])
  {
    var guard := CheckRegistration(password, confirmation);
    if guard.Rejected? then Rejected(guard.error)
    else if lookupOk && CountEmail(table, email) == 1 then Rejected(EmailTaken)
    else if signedUp.None? then Rejected(SignUpFailed)
    else Accepted(table + (if rowStored then [NewProfile(signedUp.value, email)] else []))
  }

  /** The onboarding form. `birthdate` is `None` when the entered text is
      not a date; that date, like a `Some` that is not a calendar date, makes
      `calculateAge` yield `NaN`. */
  datatype ProfileForm = ProfileForm(
    name: string,
    birthdate: Option<Age.Date>,
    gender: string,
    seeking: string,
    bio: string,
    interests: string)

  /** The form's birth date when it is a calendar date. */
  predicate HasBirthDate(form: ProfileForm)
  {
    form.birthdate.Some? && Age.ValidDate(form.birthdate.value)
  }

  /** The age `handleCompleteProfile` computes and writes: `calculateAge`
      as written, which reads the entered date as midnight UTC in local
      time (`westOfUtc` says whether the browser's zone is west of
      Greenwich, as León's is). `None` stands for `NaN` (stored as null). */
  function FormAge(today: Age.Date, form: ProfileForm, westOfUtc: bool): Option<int>
  {
    if HasBirthDate(form) then Some(Age.AgeAsWritten(today, form.birthdate.value, westOfUtc)) else None
  }

  /** The whole years since the entered birth date, the age the adult check
      evidently intends. */
  function TrueFormAge(today: Age.Date, form: ProfileForm): Option<int>
  {
    if HasBirthDate(form) then Some(Age.AgeOn(today, form.birthdate.value)) else None
  }

  /** The guards of `handleCompleteProfile` for a computed `age`: the age
      check comes first, then `seeking`; the accepted form overwrites the
      user's row with the form's fields, the age and the fixed location.
      `NaN < 18` is false in JavaScript, so an unreadable date passes the
      age check. */
  function CompleteWithAge(current: Profile, form: ProfileForm, age: Option<int>): (r: Checked<Profile>)
    ensures r == Rejected(Underage) <==> age.Some? && age.value < AdultAge
    ensures r == Rejected(SeekingMissing) <==> form.seeking == "" && !(age.Some? && age.value < AdultAge)
    ensures r.Accepted? <==> !(age.Some? && age.value < AdultAge) && form.seeking != ""
    ensures r.Accepted? ==>
              && r.value.id == current.id && r.value.email == current.email
              && r.value.location == Leon
              && r.value.seeking == form.seeking && form.seeking != ""
              && r.value.name == form.name && r.value.gender == form.gender
              && r.value.bio == form.bio && r.value.interests == form.interests
              && r.value.age == age
              && (r.value.age.Some? ==> r.value.age.value >= AdultAge)
  {
    if age.Some? && age.value < AdultAge then Rejected(Underage)
    else if form.seeking == "" then Rejected(SeekingMissing)
    else Accepted(current.(name := form.name, age := age, gender := form.gender,
                           seeking := form.seeking, bio := form.bio,
                           interests := form.interests, location := Leon))
  }

  /** `handleCompleteProfile` as written: the adult check uses the age
      `calculateAge` computes, and whoever passes it is at least 17. */
  function CompleteProfile(current: Profile, form: ProfileForm, today: Age.Date, westOfUtc: bool)
    : (r: Checked<Profile>)
    ensures r == Rejected(Underage) <==>
              HasBirthDate(form) && Age.AgeAsWritten(today, form.birthdate.value, westOfUtc) < AdultAge
    ensures r == Rejected(SeekingMissing) <==>
              form.seeking == "" &&
              !(HasBirthDate(form) && Age.AgeAsWritten(today, form.birthdate.value, westOfUtc) < AdultAge)
    ensures r.Accepted? <==>
              form.seeking != "" &&
              !(HasBirthDate(form) && Age.AgeAsWritten(today, form.birthdate.value, westOfUtc) < AdultAge)
    ensures r.Accepted? ==>
              && r.value.id == current.id && r.value.email == current.email && r.value.location == Leon
              && r.value.seeking == form.seeking && form.seeking != ""
              && r.value.name == form.name && r.value.gender == form.gender
              && r.value.bio == form.bio && r.value.interests == form.interests
              && r.value.age == FormAge(today, form, westOfUtc)
              && (r.value.age.Some? ==> r.value.age.value >= AdultAge)
              && (HasBirthDate(form) ==> Age.AgeOn(today, form.birthdate.value) >= AdultAge - 1)
  {
    var r := CompleteWithAge(current, form, FormAge(today, form, westOfUtc));
    if HasBirthDate(form) then
      Age.AgeAsWrittenAtMostOneEarly(today, form.birthdate.value, westOfUtc);
      r
    else r
  }

  /** `handleCompleteProfile` with the age of the entered date: everyone it
      accepts with a birth date has lived at least 18 whole years. */
  function CompleteProfileCorrected(current: Profile, form: ProfileForm, today: Age.Date): (r: Checked<Profile>)
    ensures r == Rejected(Underage) <==>
              HasBirthDate(form) && Age.AgeOn(today, form.birthdate.value) < AdultAge
    ensures r == Rejected(SeekingMissing) <==>
              form.seeking == "" && !(HasBirthDate(form) && Age.AgeOn(today, form.birthdate.value) < AdultAge)
    ensures r.Accepted? <==>
              form.seeking != "" && !(HasBirthDate(form) && Age.AgeOn(today, form.birthdate.value) < AdultAge)
    ensures r.Accepted? ==>
              && r.value.id == current.id && r.value.email == current.email && r.value.location == Leon
              && r.value.seeking == form.seeking
              && r.value.name == form.name && r.value.gender == form.gender
              && r.value.bio == form.bio && r.value.interests == form.interests
              && r.value.age == TrueFormAge(today, form)
              && (HasBirthDate(form) ==> Age.AgeOn(today, form.birthdate.value) >= AdultAge)
  {
    CompleteWithAge(current, form, TrueFormAge(today, form))
  }

  /** The user born on 15 October 2008 who completes the profile in León on
      14 October 2026: the source accepts the form and writes age 18, the
      corrected guard refuses it as under-age. */
  lemma CompleteProfileAdmitsSeventeen(current: Profile, form: ProfileForm)
    requires form.birthdate == Some(Age.Date(2008, 9, 15)) && form.seeking != ""
    ensures CompleteProfile(current, form, Age.Date(2026, 9, 14), true).Accepted?
    ensures CompleteProfile(current, form, Age.Date(2026, 9, 14), true).value.age == Some(18)
    ensures CompleteProfileCorrected(current, form, Age.Date(2026, 9, 14)) == Rejected(Underage)
  {
    Age.AgeAsWrittenAdmitsSeventeen();
  }

  /** `handleUpdateProfile`: only an empty `seeking` is refused; name, bio,
      interests and seeking are replaced and every other column is kept. */
  function UpdateProfile(current: Profile, name: string, bio: string, interests: string, seeking: string)
    : (r: Checked<Profile>)
    ensures r.Rejected? <==> seeking == ""
    ensures r.Rejected? ==> r.error == SeekingMissing
    ensures r.Accepted? ==>
              && r.value.name == name && r.value.bio == bio
              && r.value.interests == interests && r.value.seeking == seeking
              && r.value.id == current.id && r.value.email == current.email
              && r.value.age == current.age && r.value.gender == current.gender
              && r.value.location == current.location
  {
    if seeking == "" then Rejected(SeekingMissing)
    else Accepted(current.(name := name, bio := bio, interests := interests, seeking := seeking))
  }

  /** The effect on `profiles` of `update(...).eq('user_id', row.id)`: the
      rows of that user become `row`, every other row is kept. The backend
      changes only the columns the update names; `row` is the caller's
      `current` row with those columns replaced, so the two agree when
      `current` is the stored row, as it is after `loadUserProfile`. */
  function ApplyUpdate(table: seq<Profile>, row: Profile): (r: seq<Profile>)
    ensures |r| == |table|
    ensures forall i :: 0 <= i < |table| && table[i].id != row.id ==> r[i] == table[i]
    ensures forall i :: 0 <= i < |table| && table[i].id == row.id ==> r[i] == row
    ensures row in r <==> exists i :: 0 <= i < |table| && table[i].id == row.id
    ensures DistinctIds(table) ==> DistinctIds(r)
    decreases |table|
  {
    if table == [] then []
    else [if table[0].id == row.id then row else table[0]] + ApplyUpdate(table[1..], row)
  }
}
