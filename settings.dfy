/**
 * The settings page: three form records (profile, password, e-mail preferences), the
 * change handlers that update one named field, the three save handlers and the banner
 * notification they raise.
 */
module Settings {
  import opened Base

  datatype ProfileData = ProfileData(name: string, email: string, language: string, timezone: string)

  datatype PasswordData = PasswordData(currentPassword: string, newPassword: string, confirmPassword: string)

  datatype EmailSettings = EmailSettings(notifyOnNewEmail: bool, dailyDigest: bool, autoArchive: bool, showUnread: bool)

  datatype NotificationType = Success | Error

  datatype Notification = Notification(kind: NotificationType, message: string)

  /** The `name` attributes of the profile inputs. */
  datatype ProfileField = Name | Email | Language | Timezone

  /** The `name` attributes of the password inputs. */
  datatype PasswordField = CurrentPassword | NewPassword | ConfirmPassword

  /** The `name` attributes of the preference checkboxes. */
  datatype EmailFlag = NotifyOnNewEmail | DailyDigest | AutoArchive | ShowUnread

  function ProfileGet(p: ProfileData, f: ProfileField): string {
    match f
    case Name => p.name
    case Email => p.email
    case Language => p.language
    case Timezone => p.timezone
  }

  /** `{ ...prev, [name]: value }` on the profile record. */
  function ProfileSet(p: ProfileData, f: ProfileField, value: string): (r: ProfileData)
    ensures ProfileGet(r, f) == value
    ensures forall g :: g != f ==> ProfileGet(r, g) == ProfileGet(p, g)
  {
    match f
    case Name => p.(name := value)
    case Email => p.(email := value)
    case Language => p.(language := value)
    case Timezone => p.(timezone := value)
  }

  function PasswordGet(p: PasswordData, f: PasswordField): string {
    match f
    case CurrentPassword => p.currentPassword
    case NewPassword => p.newPassword
    case ConfirmPassword => p.confirmPassword
  }

  /** `{ ...prev, [name]: value }` on the password record. */
  function PasswordSet(p: PasswordData, f: PasswordField, value: string): (r: PasswordData)
    ensures PasswordGet(r, f) == value
    ensures forall g :: g != f ==> PasswordGet(r, g) == PasswordGet(p, g)
  {
    match f
    case CurrentPassword => p.(currentPassword := value)
    case NewPassword => p.(newPassword := value)
    case ConfirmPassword => p.(confirmPassword := value)
  }

  function FlagGet(s: EmailSettings, f: EmailFlag): bool {
    match f
    case NotifyOnNewEmail => s.notifyOnNewEmail
    case DailyDigest => s.dailyDigest
    case AutoArchive => s.autoArchive
    case ShowUnread => s.showUnread
  }

  /** `{ ...prev, [name]: checked }` on the preferences record. */
  function FlagSet(s: EmailSettings, f: EmailFlag, checked: bool): (r: EmailSettings)
    ensures FlagGet(r, f) == checked
    ensures forall g :: g != f ==> FlagGet(r, g) == FlagGet(s, g)
  {
    match f
    case NotifyOnNewEmail => s.(notifyOnNewEmail := checked)
    case DailyDigest => s.(dailyDigest := checked)
    case AutoArchive => s.(autoArchive := checked)
    case ShowUnread => s.(showUnread := checked)
  }

  /** The records are determined by their fields: two records that agree on every named field are equal. */
  lemma ProfileFieldsDetermineRecord(p: ProfileData, q: ProfileData)
    requires forall f :: ProfileGet(p, f) == ProfileGet(q, f)
    ensures p == q
  {
    assert ProfileGet(p, Name) == ProfileGet(q, Name);
    assert ProfileGet(p, Email) == ProfileGet(q, Email);
    assert ProfileGet(p, Language) == ProfileGet(q, Language);
    assert ProfileGet(p, Timezone) == ProfileGet(q, Timezone);
  }

  /** Typing back a field's current value changes nothing. */
  lemma ProfileSetSameValue(p: ProfileData, f: ProfileField)
    ensures ProfileSet(p, f, ProfileGet(p, f)) == p
  {
    ProfileFieldsDetermineRecord(ProfileSet(p, f, ProfileGet(p, f)), p);
  }

  /** `value || fallback` for a string that may be undefined: undefined and "" are falsy. */
  function OrDefault(value: Option<string>, fallback: string): (r: string)
    ensures value.Some? && value.value != [] ==> r == value.value
    ensures value.None? || value.value == [] ==> r == fallback
  {
    if value.Some? && value.value != [] then value.value else fallback
  }

  const EmptyPasswords := PasswordData("", "", "")

  /** The page's state. */
  class Page {
    var profileData: ProfileData
    var passwordData: PasswordData
    var emailSettings: EmailSettings
    var notification: Option<Notification>

    /**
     * The initial state. `userName` and `userEmail` are the signed-in user's name and e-mail
     * (None when there is no user or the field is missing).
     */
    constructor (userName: Option<string>, userEmail: Option<string>)
      ensures profileData == ProfileData(OrDefault(userName, "John Doe"), OrDefault(userEmail, "john.doe@example.com"), "en", "UTC")
      ensures passwordData == EmptyPasswords
      ensures emailSettings == EmailSettings(true, false, false, true)
      ensures notification == None
    {
      profileData := ProfileData(OrDefault(userName, "John Doe"), OrDefault(userEmail, "john.doe@example.com"), "en", "UTC");
      passwordData := EmptyPasswords;
      emailSettings := EmailSettings(true, false, false, true);
      notification := None;
    }

    /** handleProfileChange: only the named profile field changes. */
    method HandleProfileChange(f: ProfileField, value: string)
      modifies this
      ensures ProfileGet(profileData, f) == value
      ensures forall g :: g != f ==> ProfileGet(profileData, g) == ProfileGet(old(profileData), g)
      ensures passwordData == old(passwordData) && emailSettings == old(emailSettings) && notification == old(notification)
    {
      profileData := ProfileSet(profileData, f, value);
    }

    /** handlePasswordChange: only the named password field changes. */
    method HandlePasswordChange(f: PasswordField, value: string)
      modifies this
      ensures PasswordGet(passwordData, f) == value
      ensures forall g :: g != f ==> PasswordGet(passwordData, g) == PasswordGet(old(passwordData), g)
      ensures profileData == old(profileData) && emailSettings == old(emailSettings) && notification == old(notification)
    {
      passwordData := PasswordSet(passwordData, f, value);
    }

    /** handleCheckboxChange: only the named preference changes. */
    method HandleCheckboxChange(f: EmailFlag, checked: bool)
      modifies this
      ensures FlagGet(emailSettings, f) == checked
      ensures forall g :: g != f ==> FlagGet(emailSettings, g) == FlagGet(old(emailSettings), g)
      ensures profileData == old(profileData) && passwordData == old(passwordData) && notification == old(notification)
    {
      emailSettings := FlagSet(emailSettings, f, checked);
    }

    /** saveProfile: a success banner; the data itself is only logged. */
    method SaveProfile()
      modifies this
      ensures notification == Some(Notification(Success, "Profile settings saved successfully"))
      ensures profileData == old(profileData) && passwordData == old(passwordData) && emailSettings == old(emailSettings)
    {
      notification := Some(Notification(Success, "Profile settings saved successfully"));
    }

    /**
     * savePassword: when the new password and its confirmation differ, an error banner and
     * the fields stay as typed; otherwise a success banner and all three fields are emptied.
     */
    method SavePassword()
      modifies this
      ensures old(passwordData).newPassword != old(passwordData).confirmPassword ==>
                notification == Some(Notification(Error, "New passwords do not match"))
                && passwordData == old(passwordData)
      ensures old(passwordData).newPassword == old(passwordData).confirmPassword ==>
                notification == Some(Notification(Success, "Password changed successfully"))
                && passwordData == EmptyPasswords
      ensures profileData == old(profileData) && emailSettings == old(emailSettings)
    {
      if passwordData.newPassword != passwordData.confirmPassword {
        notification := Some(Notification(Error, "New passwords do not match"));
        return;
      }
      notification := Some(Notification(Success, "Password changed successfully"));
      passwordData := EmptyPasswords;
    }

    /** saveEmailSettings: a success banner; the preferences are only logged. */
    method SaveEmailSettings()
      modifies this
      ensures notification == Some(Notification(Success, "Email settings saved successfully"))
      ensures profileData == old(profileData) && passwordData == old(passwordData) && emailSettings == old(emailSettings)
    {
      notification := Some(Notification(Success, "Email settings saved successfully"));
    }

    /** The three-second timer a save starts: the banner goes away. */
    method ClearNotification()
      modifies this
      ensures notification == None
      ensures profileData == old(profileData) && passwordData == old(passwordData) && emailSettings == old(emailSettings)
    {
      notification := None;
    }
  }
}
