/** The settings screen: notification and privacy switches, appearance
    choices, the password-change form and the confirmation message. */
module Settings {

  datatype NotificationSettings = NotificationSettings(
    emailReminders: bool,
    smsReminders: bool,
    overdueNotifications: bool,
    newBookAlerts: bool,
    systemUpdates: bool,
    marketingEmails: bool)

  datatype NotificationKey =
    EmailReminders | SmsReminders | OverdueNotifications | NewBookAlerts | SystemUpdates | MarketingEmails

  const DefaultNotifications := NotificationSettings(true, false, true, true, true, false)

  /** `notifications[key]`. */
  function NotificationOf(s: NotificationSettings, k: NotificationKey): bool {
    match k
    case EmailReminders => s.emailReminders
    case SmsReminders => s.smsReminders
    case OverdueNotifications => s.overdueNotifications
    case NewBookAlerts => s.newBookAlerts
    case SystemUpdates => s.systemUpdates
    case MarketingEmails => s.marketingEmails
  }

  /** `{...notifications, [key]: !value}`: the switch flips one setting and no other. */
  function ToggleNotification(s: NotificationSettings, k: NotificationKey): (r: NotificationSettings)
    ensures NotificationOf(r, k) == !NotificationOf(s, k)
    ensures forall other :: other != k ==> NotificationOf(r, other) == NotificationOf(s, other)
  {
    match k
    case EmailReminders => s.(emailReminders := !s.emailReminders)
    case SmsReminders => s.(smsReminders := !s.smsReminders)
    case OverdueNotifications => s.(overdueNotifications := !s.overdueNotifications)
    case NewBookAlerts => s.(newBookAlerts := !s.newBookAlerts)
    case SystemUpdates => s.(systemUpdates := !s.systemUpdates)
    case MarketingEmails => s.(marketingEmails := !s.marketingEmails)
  }

  /** The settings are determined by their switches, so a switch flipped twice
      restores them. */
  lemma NotificationsExtensional(s: NotificationSettings, t: NotificationSettings)
    requires forall k :: NotificationOf(s, k) == NotificationOf(t, k)
    ensures s == t
  {
    assert NotificationOf(s, EmailReminders) == NotificationOf(t, EmailReminders);
    assert NotificationOf(s, SmsReminders) == NotificationOf(t, SmsReminders);
    assert NotificationOf(s, OverdueNotifications) == NotificationOf(t, OverdueNotifications);
    assert NotificationOf(s, NewBookAlerts) == NotificationOf(t, NewBookAlerts);
    assert NotificationOf(s, SystemUpdates) == NotificationOf(t, SystemUpdates);
    assert NotificationOf(s, MarketingEmails) == NotificationOf(t, MarketingEmails);
  }

  lemma ToggleNotificationTwice(s: NotificationSettings, k: NotificationKey)
    ensures ToggleNotification(ToggleNotification(s, k), k) == s
  {
    NotificationsExtensional(ToggleNotification(ToggleNotification(s, k), k), s);
  }

  datatype PrivacySettings = PrivacySettings(
    showBorrowingHistory: bool,
    showFavoriteGenres: bool,
    allowRecommendations: bool,
    showOnlineStatus: bool)

  datatype PrivacyKey = ShowBorrowingHistory | ShowFavoriteGenres | AllowRecommendations | ShowOnlineStatus

  const DefaultPrivacy := PrivacySettings(true, true, true, false)

  function PrivacyOf(s: PrivacySettings, k: PrivacyKey): bool {
    match k
    case ShowBorrowingHistory => s.showBorrowingHistory
    case ShowFavoriteGenres => s.showFavoriteGenres
    case AllowRecommendations => s.allowRecommendations
    case ShowOnlineStatus => s.showOnlineStatus
  }

  /** `{...privacy, [key]: !value}`. */
  function TogglePrivacy(s: PrivacySettings, k: PrivacyKey): (r: PrivacySettings)
    ensures PrivacyOf(r, k) == !PrivacyOf(s, k)
    ensures forall other :: other != k ==> PrivacyOf(r, other) == PrivacyOf(s, other)
  {
    match k
    case ShowBorrowingHistory => s.(showBorrowingHistory := !s.showBorrowingHistory)
    case ShowFavoriteGenres => s.(showFavoriteGenres := !s.showFavoriteGenres)
    case AllowRecommendations => s.(allowRecommendations := !s.allowRecommendations)
    case ShowOnlineStatus => s.(showOnlineStatus := !s.showOnlineStatus)
  }

  lemma PrivacyExtensional(s: PrivacySettings, t: PrivacySettings)
    requires forall k :: PrivacyOf(s, k) == PrivacyOf(t, k)
    ensures s == t
  {
    assert PrivacyOf(s, ShowBorrowingHistory) == PrivacyOf(t, ShowBorrowingHistory);
    assert PrivacyOf(s, ShowFavoriteGenres) == PrivacyOf(t, ShowFavoriteGenres);
    assert PrivacyOf(s, AllowRecommendations) == PrivacyOf(t, AllowRecommendations);
    assert PrivacyOf(s, ShowOnlineStatus) == PrivacyOf(t, ShowOnlineStatus);
  }

  lemma TogglePrivacyTwice(s: PrivacySettings, k: PrivacyKey)
    ensures TogglePrivacy(TogglePrivacy(s, k), k) == s
  {
    PrivacyExtensional(TogglePrivacy(TogglePrivacy(s, k), k), s);
  }

  datatype Theme = Light | Dark | System
  datatype Language = Fr | En

  datatype AppearanceSettings = AppearanceSettings(theme: Theme, language: Language, compactMode: bool, showAvatars: bool)

  const DefaultAppearance := AppearanceSettings(Light, Fr, false, true)

  // ---------------------------------------------------------------------------
  // Messages and the password form

  const MismatchMessage := "Les mots de passe ne correspondent pas !"
  const PasswordUpdatedMessage := "Mot de passe mis à jour avec succès !"
  const SavePrefix := "Paramètres "
  const SaveSuffix := " sauvegardés avec succès !"

  /** `handleSave(section)`. */
  function SaveMessage(section: string): string {
    SavePrefix + section + " sauvegardés avec succès !"
  }

  /** The message names the section: different sections never give the same message. */
  lemma SaveMessageInjective(a: string, b: string)
    requires SaveMessage(a) == SaveMessage(b)
    ensures a == b
  {
    var m := SaveMessage(a);
    assert m == SavePrefix + a + SaveSuffix && m == SavePrefix + b + SaveSuffix;
    assert |a| == |b|;
    assert a == m[|SavePrefix|..|SavePrefix| + |a|];
    assert b == m[|SavePrefix|..|SavePrefix| + |b|];
  }

  datatype PasswordForm = PasswordForm(currentPassword: string, newPassword: string, confirmPassword: string)

  const EmptyPasswordForm := PasswordForm("", "", "")

  /** `handlePasswordChange`: a mismatch is reported and the form is kept;
      otherwise (two empty fields match too) success is reported and the form
      is emptied. The result is the new form and the message. */
  function PasswordChange(form: PasswordForm): (r: (PasswordForm, string))
    ensures form.newPassword != form.confirmPassword <==> r.1 == MismatchMessage
    ensures form.newPassword != form.confirmPassword ==> r.0 == form
    ensures form.newPassword == form.confirmPassword ==> r == (EmptyPasswordForm, PasswordUpdatedMessage)
  {
    if form.newPassword != form.confirmPassword then (form, MismatchMessage)
    else (EmptyPasswordForm, PasswordUpdatedMessage)
  }

  /** A reported mismatch stays reported until the fields are edited; after a
      success the emptied fields match, so another click succeeds again. */
  lemma PasswordChangeAgain(form: PasswordForm)
    ensures PasswordChange(form).1 == MismatchMessage ==> PasswordChange(PasswordChange(form).0) == PasswordChange(form)
    ensures PasswordChange(form).1 == PasswordUpdatedMessage ==>
            PasswordChange(PasswordChange(form).0) == (EmptyPasswordForm, PasswordUpdatedMessage)
  {
  }

  datatype PasswordField = Current | New | Confirm

  function EditPassword(form: PasswordForm, field: PasswordField, value: string): (r: PasswordForm)
    ensures r.currentPassword == (if field == Current then value else form.currentPassword)
    ensures r.newPassword == (if field == New then value else form.newPassword)
    ensures r.confirmPassword == (if field == Confirm then value else form.confirmPassword)
  {
    match field
    case Current => form.(currentPassword := value)
    case New => form.(newPassword := value)
    case Confirm => form.(confirmPassword := value)
  }

  /** Typing the same new password twice makes the change go through. */
  lemma MatchingEntriesSucceed(form: PasswordForm, password: string)
    ensures PasswordChange(EditPassword(EditPassword(form, New, password), Confirm, password)).1 == PasswordUpdatedMessage
  {
  }

  // ---------------------------------------------------------------------------
  // The page state

  class Page {
    var notifications: NotificationSettings
    var privacy: PrivacySettings
    var appearance: AppearanceSettings
    var passwordForm: PasswordForm
    var saveMessage: string

    constructor ()
      ensures notifications == DefaultNotifications && privacy == DefaultPrivacy
      ensures appearance == DefaultAppearance && passwordForm == EmptyPasswordForm && saveMessage == ""
    {
      notifications := DefaultNotifications;
      privacy := DefaultPrivacy;
      appearance := DefaultAppearance;
      passwordForm := EmptyPasswordForm;
      saveMessage := "";
    }

    method FlipNotification(k: NotificationKey)
      modifies this
      ensures notifications == ToggleNotification(old(notifications), k)
      ensures privacy == old(privacy) && appearance == old(appearance)
      ensures passwordForm == old(passwordForm) && saveMessage == old(saveMessage)
    {
      notifications := ToggleNotification(notifications, k);
    }

    method FlipPrivacy(k: PrivacyKey)
      modifies this
      ensures privacy == TogglePrivacy(old(privacy), k)
      ensures notifications == old(notifications) && appearance == old(appearance)
      ensures passwordForm == old(passwordForm) && saveMessage == old(saveMessage)
    {
      privacy := TogglePrivacy(privacy, k);
    }

    method SetTheme(theme: Theme)
      modifies this
      ensures appearance == old(appearance).(theme := theme)
      ensures notifications == old(notifications) && privacy == old(privacy)
      ensures passwordForm == old(passwordForm) && saveMessage == old(saveMessage)
    {
      appearance := appearance.(theme := theme);
    }

    method SetLanguage(language: Language)
      modifies this
      ensures appearance == old(appearance).(language := language)
      ensures notifications == old(notifications) && privacy == old(privacy)
      ensures passwordForm == old(passwordForm) && saveMessage == old(saveMessage)
    {
      appearance := appearance.(language := language);
    }

    method ToggleCompactMode()
      modifies this
      ensures appearance == old(appearance).(compactMode := !old(appearance).compactMode)
      ensures notifications == old(notifications) && privacy == old(privacy)
      ensures passwordForm == old(passwordForm) && saveMessage == old(saveMessage)
    {
      appearance := appearance.(compactMode := !appearance.compactMode);
    }

    method ToggleShowAvatars()
      modifies this
      ensures appearance == old(appearance).(showAvatars := !old(appearance).showAvatars)
      ensures notifications == old(notifications) && privacy == old(privacy)
      ensures passwordForm == old(passwordForm) && saveMessage == old(saveMessage)
    {
      appearance := appearance.(showAvatars := !appearance.showAvatars);
    }

    method HandleSave(section: string)
      modifies this
      ensures saveMessage == SaveMessage(section)
      ensures notifications == old(notifications) && privacy == old(privacy)
      ensures appearance == old(appearance) && passwordForm == old(passwordForm)
    {
      saveMessage := SaveMessage(section);
    }

    method EditPasswordField(field: PasswordField, value: string)
      modifies this
      ensures passwordForm == EditPassword(old(passwordForm), field, value)
      ensures notifications == old(notifications) && privacy == old(privacy)
      ensures appearance == old(appearance) && saveMessage == old(saveMessage)
    {
      passwordForm := EditPassword(passwordForm, field, value);
    }

    method HandlePasswordChange()
      modifies this
      ensures (passwordForm, saveMessage) == PasswordChange(old(passwordForm))
      ensures notifications == old(notifications) && privacy == old(privacy) && appearance == old(appearance)
    {
      if passwordForm.newPassword != passwordForm.confirmPassword {
        saveMessage := MismatchMessage;
        return;
      }
      saveMessage := PasswordUpdatedMessage;
      passwordForm := EmptyPasswordForm;
    }
  }
}
