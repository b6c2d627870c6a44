/** The settings dialog's password tab: the schema of the password form, the watch
    callback that drives the button and the match hint, and the submit and reset
    handlers, which call the home page's `handlePasswordChange`. */
module SettingsDialog {
  import opened Wrappers
  import opened BrowserStorage
  import opened HomePage

  datatype PasswordForm = PasswordForm(currentPassword: string, newPassword: string, confirmPassword: string)

  const EmptyForm: PasswordForm := PasswordForm("", "", "")
  const MinNewPasswordLength: nat := 6
  const ResetPassword: string := "admin"

  datatype FieldName = CurrentPassword | NewPassword | ConfirmPassword
  datatype Issue = Issue(path: FieldName, message: string)

  const CurrentRequired: string := "当前密码为必填项。"
  const NewTooShort: string := "新密码至少需要6个字符。"
  const ConfirmRequired: string := "确认密码为必填项。"
  const Mismatch: string := "新密码和确认密码不匹配。"

  /** The issues `passwordFormSchema` reports: the three field rules, then the
      refinement, which is attached to `confirmPassword`. */
  function SchemaIssues(v: PasswordForm): (issues: seq<Issue>)
    ensures Issue(CurrentPassword, CurrentRequired) in issues <==> v.currentPassword == ""
    ensures Issue(NewPassword, NewTooShort) in issues <==> |v.newPassword| < MinNewPasswordLength
    ensures Issue(ConfirmPassword, ConfirmRequired) in issues <==> v.confirmPassword == ""
    ensures Issue(ConfirmPassword, Mismatch) in issues <==> v.newPassword != v.confirmPassword
    ensures issues == [] <==>
      v.currentPassword != "" && |v.newPassword| >= MinNewPasswordLength && v.newPassword == v.confirmPassword
  {
    (if |v.currentPassword| < 1 then [Issue(CurrentPassword, CurrentRequired)] else []) +
    (if |v.newPassword| < MinNewPasswordLength then [Issue(NewPassword, NewTooShort)] else []) +
    (if |v.confirmPassword| < 1 then [Issue(ConfirmPassword, ConfirmRequired)] else []) +
    (if v.newPassword != v.confirmPassword then [Issue(ConfirmPassword, Mismatch)] else [])
  }

  datatype WatchState = WatchState(passwordsMatch: Option<bool>, buttonEnabled: bool)

  /** The watch callback: the match hint is unset while the confirmation is empty, and
      the button needs all three fields filled and the two new passwords equal. */
  function Watch(v: PasswordForm): (w: WatchState)
    ensures w.passwordsMatch.None? <==> v.confirmPassword == ""
    ensures w.passwordsMatch == Some(false) <==> v.confirmPassword != "" && v.newPassword != v.confirmPassword
    ensures w.buttonEnabled ==> w.passwordsMatch == Some(true) && v.currentPassword != ""
    ensures w.buttonEnabled <==>
      v.currentPassword != "" && v.newPassword != "" && v.newPassword == v.confirmPassword
  {
    var allFieldsFilled := v.currentPassword != "" && v.newPassword != "" && v.confirmPassword != "";
    var passwordsDoMatch := v.newPassword == v.confirmPassword;
    WatchState(if v.confirmPassword != "" then Some(passwordsDoMatch) else None,
               allFieldsFilled && passwordsDoMatch)
  }

  /** A form the schema accepts always has the button enabled and shows a match; an
      enabled button implies a match. */
  lemma WatchAgreesWithSchema(v: PasswordForm)
    ensures SchemaIssues(v) == [] ==> Watch(v) == WatchState(Some(true), true)
    ensures Watch(v).buttonEnabled ==> Watch(v).passwordsMatch == Some(true)
    ensures Watch(v).passwordsMatch == Some(false) ==> Issue(ConfirmPassword, Mismatch) in SchemaIssues(v)
  {
  }

  /** The button rule is looser than the schema: it does not check the minimum length.
      For every filled form whose matching new password is shorter than six characters
      the button is enabled while the schema reports exactly the length issue. */
  lemma ButtonEnabledForShortPassword(v: PasswordForm)
    requires v.currentPassword != "" && v.newPassword == v.confirmPassword
    requires 0 < |v.newPassword| < MinNewPasswordLength
    ensures Watch(v).buttonEnabled && SchemaIssues(v) == [Issue(NewPassword, NewTooShort)]
  {
  }

  datatype SubmitOutcome = PasswordsDiffer | WrongCurrentPassword | Changed | ChangeFailed

  class SettingsDialog {
    var open: bool
    var form: PasswordForm
    var passwordsMatch: Option<bool>
    var passwordButtonEnabled: bool
    var isPasswordPending: bool
    var isResetPending: bool

    constructor ()
      ensures !open && form == EmptyForm && passwordsMatch == None && !passwordButtonEnabled
      ensures !isPasswordPending && !isResetPending
    {
      open, form, passwordsMatch, passwordButtonEnabled := false, EmptyForm, None, false;
      isPasswordPending, isResetPending := false, false;
    }

    /** The effect run when the dialog opens. */
    method OnOpen()
      modifies this
      ensures open && form == EmptyForm && passwordsMatch == None && !passwordButtonEnabled
      ensures isPasswordPending == old(isPasswordPending) && isResetPending == old(isResetPending)
    {
      open := true;
      form := EmptyForm;
      passwordButtonEnabled := false;
      passwordsMatch := None;
    }

    /** A field edit, with the watch callback it triggers. */
    method OnFormChange(v: PasswordForm)
      modifies this`form, this`passwordsMatch, this`passwordButtonEnabled
      ensures form == v
      ensures WatchState(passwordsMatch, passwordButtonEnabled) == Watch(v)
    {
      form := v;
      var allFieldsFilled := v.currentPassword != "" && v.newPassword != "" && v.confirmPassword != "";
      var passwordsDoMatch := v.newPassword == v.confirmPassword;
      if v.confirmPassword != "" {
        passwordsMatch := Some(passwordsDoMatch);
      } else {
        passwordsMatch := None;
      }
      passwordButtonEnabled := allFieldsFilled && passwordsDoMatch;
    }

    /** `handlePasswordSubmit` for values the schema let through; `currentPassword` is
        the dialog's prop (the signed-in user's password). */
    method HandlePasswordSubmit(data: PasswordForm, currentPassword: Option<string>, page: HomePage, ls: LocalStorage)
      returns (outcome: SubmitOutcome)
      modifies this`open, this`form, this`isPasswordPending, page`currentUser, ls`userCredentials
      ensures data.newPassword != data.confirmPassword ==>
        outcome == PasswordsDiffer && isPasswordPending == old(isPasswordPending)
      ensures data.newPassword == data.confirmPassword && Some(data.currentPassword) != currentPassword ==>
        outcome == WrongCurrentPassword
      ensures outcome in {PasswordsDiffer, WrongCurrentPassword} ==>
        page.currentUser == old(page.currentUser) && ls.userCredentials == old(ls.userCredentials) &&
        open == old(open) && form == old(form)
      ensures data.newPassword == data.confirmPassword && Some(data.currentPassword) == currentPassword ==>
        (outcome == Changed <==> old(page.currentUser).Some?) && outcome in {Changed, ChangeFailed}
      ensures outcome == Changed ==>
        ls.userCredentials == Some(Parsed(CredentialsJson(old(page.currentUser).value.username, data.newPassword))) &&
        page.currentUser == Some(User(old(page.currentUser).value.username, data.newPassword)) &&
        form == EmptyForm && !open
      ensures outcome == ChangeFailed ==>
        page.currentUser == old(page.currentUser) && ls.userCredentials == old(ls.userCredentials) &&
        open == old(open) && form == old(form)
      ensures outcome != PasswordsDiffer ==> !isPasswordPending
    {
      if data.newPassword != data.confirmPassword {
        return PasswordsDiffer;
      }
      isPasswordPending := true;
      if Some(data.currentPassword) != currentPassword {
        isPasswordPending := false;
        return WrongCurrentPassword;
      }
      var success := page.HandlePasswordChange(ls, data.newPassword);
      if success {
        form := EmptyForm;
        open := false;
        outcome := Changed;
      } else {
        outcome := ChangeFailed;
      }
      isPasswordPending := false;
    }

    /** `handleResetPassword`: after the user confirms, requests the password "admin". */
    method HandleResetPassword(confirmed: bool, page: HomePage, ls: LocalStorage) returns (reset: bool)
      modifies this`form, this`isResetPending, page`currentUser, ls`userCredentials
      ensures reset <==> confirmed && old(page.currentUser).Some?
      ensures reset ==>
        ls.userCredentials == Some(Parsed(CredentialsJson(old(page.currentUser).value.username, ResetPassword))) &&
        page.currentUser == Some(User(old(page.currentUser).value.username, ResetPassword)) &&
        form == EmptyForm
      ensures !reset ==>
        page.currentUser == old(page.currentUser) && ls.userCredentials == old(ls.userCredentials) && form == old(form)
      ensures !confirmed ==> isResetPending == old(isResetPending)
      ensures confirmed ==> !isResetPending
    {
      if !confirmed {
        return false;
      }
      isResetPending := true;
      var success := page.HandlePasswordChange(ls, ResetPassword);
      isResetPending := false;
      if success {
        form := EmptyForm;
      }
      return success;
    }
  }
}
