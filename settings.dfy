/**
 * The settings page: the profile form's defaults, the password-change validator and its
 * request, and the merge of an updated profile into the stored user.
 */
module Settings {
  import opened Wrappers

  /** A field of the stored user object. */
  datatype Value = Str(s: string) | Num(n: int) | Null

  /** The user object kept in local storage, by field name. */
  type User = map<string, Value>

  const MinPasswordLength: int := 6

  /** `user?.[key] || fallback` for a field holding text. */
  function TextOr(user: Option<User>, key: string, fallback: string): (r: string)
    ensures r == fallback || (user.Some? && key in user.value && user.value[key] == Str(r) && r != "")
    ensures user.Some? && key in user.value && user.value[key].Str? && user.value[key].s != "" ==> r == user.value[key].s
  {
    if user.Some? && key in user.value && user.value[key].Str? && user.value[key].s != "" then user.value[key].s else fallback
  }

  datatype ProfileForm = ProfileForm(gender: string, dob: string)

  /** The profile form for the current user: gender "male" and an empty birth date when the user has none. */
  function FormDefaults(user: Option<User>): (f: ProfileForm)
    ensures f.gender == TextOr(user, "gender", "male") && f.dob == TextOr(user, "dob", "")
  {
    ProfileForm(TextOr(user, "gender", "male"), TextOr(user, "dob", ""))
  }

  datatype PasswordData = PasswordData(oldPassword: string, newPassword: string, confirmPassword: string)

  datatype PasswordError = Mismatch | TooShort

  /** The password-change request: the user, the old and the new password; the confirmation stays behind. */
  datatype PasswordRequest = PasswordRequest(userId: Option<Value>, oldPassword: string, newPassword: string)

  function IdOf(user: User): Option<Value> {
    if "id" in user then Some(user["id"]) else None
  }

  /** The two guards of `handleChangePassword`, mismatch first, then length. */
  function CheckPassword(user: User, pd: PasswordData): (r: Result<PasswordRequest, PasswordError>)
    ensures pd.newPassword != pd.confirmPassword <==> r == Failure(Mismatch)
    ensures r == Failure(TooShort) <==> pd.newPassword == pd.confirmPassword && |pd.newPassword| < MinPasswordLength
    ensures r.Success? <==> pd.newPassword == pd.confirmPassword && |pd.newPassword| >= MinPasswordLength
    ensures r.Success? ==> r.value == PasswordRequest(IdOf(user), pd.oldPassword, pd.newPassword)
  {
    if pd.newPassword != pd.confirmPassword then Failure(Mismatch)
    else if |pd.newPassword| < MinPasswordLength then Failure(TooShort)
    else Success(PasswordRequest(IdOf(user), pd.oldPassword, pd.newPassword))
  }

  /** A request that is made carries a new password of at least six characters that was typed twice. */
  lemma RequestMeansConfirmed(user: User, pd: PasswordData)
    requires CheckPassword(user, pd).Success?
    ensures CheckPassword(user, pd).value.newPassword == pd.confirmPassword
    ensures |CheckPassword(user, pd).value.newPassword| >= MinPasswordLength
  {
  }

  /** The profile update request. */
  datatype ProfileRequest = ProfileRequest(userId: Option<Value>, gender: string, dob: string)

  /** `{ ...user, gender, dob }`: only the two fields change. */
  function MergeProfile(user: User, gender: Value, dob: Value): (u: User)
    ensures u.Keys == user.Keys + {"gender", "dob"}
    ensures u["gender"] == gender && u["dob"] == dob
    ensures forall k :: k in user && k != "gender" && k != "dob" ==> u[k] == user[k]
  {
    user["gender" := gender]["dob" := dob]
  }

  /** Merging the same answer twice is merging it once. */
  lemma MergeIdempotent(user: User, gender: Value, dob: Value)
    ensures MergeProfile(MergeProfile(user, gender, dob), gender, dob) == MergeProfile(user, gender, dob)
  {
  }

  /** After a merge of text values the form shows what the server answered (or its defaults). */
  lemma MergedFormShowsAnswer(user: User, gender: string, dob: string)
    ensures FormDefaults(Some(MergeProfile(user, Str(gender), Str(dob))))
      == ProfileForm(if gender != "" then gender else "male", dob)
  {
  }

  class SettingsPage {
    var user: Option<User>
    var stored: Option<User>
    var formData: ProfileForm
    var passwordData: PasswordData
    var showPasswordModal: bool
    var showEditModal: bool

    /** The page for the user read from local storage. */
    constructor (current: Option<User>)
      ensures user == current && stored == current && formData == FormDefaults(current)
      ensures passwordData == PasswordData("", "", "") && !showPasswordModal && !showEditModal
    {
      user, stored := current, current;
      formData := FormDefaults(current);
      passwordData := PasswordData("", "", "");
      showPasswordModal, showEditModal := false, false;
    }

    /**
     * `handleChangePassword`: the request made, if any.  Nothing is sent on a mismatch or a
     * short password, nor without a signed-in user; the page state does not change.
     */
    method ChangePassword() returns (request: Option<PasswordRequest>)
      ensures user.None? ==> request.None?
      ensures user.Some? ==>
        (request.Some? <==> CheckPassword(user.value, passwordData).Success?)
        && (request.Some? ==> request.value == CheckPassword(user.value, passwordData).value)
    {
      if user.None? {
        return None;
      }
      if passwordData.newPassword != passwordData.confirmPassword {
        return None;
      }
      if |passwordData.newPassword| < MinPasswordLength {
        return None;
      }
      request := Some(PasswordRequest(IdOf(user.value), passwordData.oldPassword, passwordData.newPassword));
    }

    /** The success answer of the password change: the modal closes and the three fields are cleared. */
    method PasswordChanged()
      modifies this
      ensures !showPasswordModal && passwordData == PasswordData("", "", "")
      ensures user == old(user) && stored == old(stored) && formData == old(formData) && showEditModal == old(showEditModal)
    {
      showPasswordModal := false;
      passwordData := PasswordData("", "", "");
    }

    /** `handleUpdateProfile`: the request sent, none without a signed-in user. */
    method UpdateProfile() returns (request: Option<ProfileRequest>)
      ensures user.None? ==> request.None?
      ensures user.Some? ==> request == Some(ProfileRequest(IdOf(user.value), formData.gender, formData.dob))
    {
      if user.None? {
        return None;
      }
      request := Some(ProfileRequest(IdOf(user.value), formData.gender, formData.dob));
    }

    /**
     * The success answer of the profile update: the answered gender and birth date are merged
     * into the user, which is stored and shown, and the edit modal closes.
     */
    method ProfileUpdated(gender: Value, dob: Value)
      requires user.Some?
      modifies this
      ensures user == Some(MergeProfile(old(user).value, gender, dob)) && stored == user
      ensures formData == FormDefaults(user)
      ensures !showEditModal
      ensures passwordData == old(passwordData) && showPasswordModal == old(showPasswordModal)
    {
      var updated := user.value["gender" := gender]["dob" := dob];
      stored := Some(updated);
      user := Some(updated);
      formData := FormDefaults(user);
      showEditModal := false;
    }
  }
}
