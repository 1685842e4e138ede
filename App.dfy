/**
 * The app's state cells and the handlers that overwrite them: the session
 * gate (login, password reset, password change), the roster editor, the
 * snapshot callback of the shared document, the autosave slot and the
 * explicit save. Writes to the shared document are returned as effects.
 */
module App {
  import opened Wrappers
  import opened Roster
  import Slots
  import Schedules
  import Designers
  import opened Sync

  const RecoveryCode: string := "8888"
  const MinPasswordLength: nat := 4

  const WrongPasswordMessage: string := "密碼錯誤，請重新輸入！"
  const WrongCodeMessage: string := "安全驗證碼錯誤！"
  const PasswordResetToast: string := "密碼已成功重置為：admin"
  const EmptyPasswordToast: string := "請輸入新密碼！"
  const ShortPasswordToast: string := "密碼長度至少需 4 碼！"
  const PasswordChangedToast: string := "密碼修改成功！下次請使用新密碼登入。"
  const KeepOneDesignerToast: string := "至少需保留一位設計師！"
  const DesignerDeletedToast: string := "已成功刪除設計師"

  /** All state cells at once, so that a contract can say which ones a handler changes. */
  datatype AppState = AppState(
    doc: RemoteDoc,
    activeDesignerId: Option<string>,
    isAdminMode: bool,
    isCloudLoaded: bool,
    showPasswordPrompt: bool,
    showForgotPrompt: bool,
    passwordInput: string,
    passwordError: string,
    newPasswordInput: string,
    designerToDelete: Option<string>,
    toastMessage: string,
    pendingWrite: Option<RemoteDoc>)

  class App {
    var designers: seq<Designer>
    var activeDesignerId: Option<string>
    var isAdminMode: bool
    var isCloudLoaded: bool
    var adminPassword: string
    var lineOfficialId: string
    var showPasswordPrompt: bool
    var showForgotPrompt: bool
    var passwordInput: string
    var passwordError: string
    var newPasswordInput: string
    var designerToDelete: Option<string>
    var toastMessage: string
    /** The document the running autosave timer will write, if one is running. */
    var pendingWrite: Option<RemoteDoc>

    /** The part of the state that is written to the shared document. */
    function Doc(): RemoteDoc
      reads this
    {
      RemoteDoc(designers, adminPassword, lineOfficialId)
    }

    function State(): AppState
      reads this
    {
      AppState(Doc(), activeDesignerId, isAdminMode, isCloudLoaded, showPasswordPrompt, showForgotPrompt,
               passwordInput, passwordError, newPasswordInput, designerToDelete, toastMessage, pendingWrite)
    }

    /** The password is never empty, so an empty input never opens admin mode. */
    ghost predicate Valid()
      reads this
    {
      adminPassword != ""
    }

    /** The designer the editor shows. */
    function Active(): Option<Designer>
      reads this
    {
      Designers.ActiveDesigner(designers, activeDesignerId)
    }

    /** The roster after giving the active designer the schedule list `ss`. */
    function WithActiveSchedules(ss: seq<Schedule>): seq<Designer>
      reads this
    {
      Designers.UpdateActive(designers, activeDesignerId, Designers.SetSchedules(ss))
    }

    /** The initial values of the state cells: the seed roster, its first designer active. */
    constructor ()
      ensures Valid()
      ensures State() == AppState(BootstrapDoc, Some("d1"), false, false, false, false, "", "", "", None, "", None)
    {
      designers := InitialDesigners();
      activeDesignerId := Some(InitialDesigners()[0].id);
      isAdminMode := false;
      isCloudLoaded := false;
      adminPassword := DefaultPassword;
      lineOfficialId := "";
      showPasswordPrompt := false;
      showForgotPrompt := false;
      passwordInput := "";
      passwordError := "";
      newPasswordInput := "";
      designerToDelete := None;
      toastMessage := "";
      pendingWrite := None;
    }

    // -------------------------------------------------------------------------
    // Session gate.

    method AdminLogin()
      requires Valid()
      modifies this
      ensures Valid()
      ensures old(passwordInput) == old(adminPassword) ==>
        State() == old(State()).(isAdminMode := true, showPasswordPrompt := false, passwordInput := "", passwordError := "")
      ensures old(passwordInput) != old(adminPassword) ==>
        State() == old(State()).(passwordInput := "", passwordError := WrongPasswordMessage)
      ensures old(passwordInput) == "" ==> isAdminMode == old(isAdminMode)
    {
      if passwordInput == adminPassword {
        isAdminMode := true;
        showPasswordPrompt := false;
        passwordInput := "";
        passwordError := "";
      } else {
        passwordError := WrongPasswordMessage;
        passwordInput := "";
      }
    }

    method ResetPassword()
      requires Valid()
      modifies this
      ensures Valid()
      ensures old(passwordInput) == RecoveryCode ==>
        State() == old(State()).(doc := old(Doc()).(adminPassword := DefaultPassword),
                                 showForgotPrompt := false, showPasswordPrompt := true,
                                 passwordInput := "", passwordError := "", toastMessage := PasswordResetToast)
      ensures old(passwordInput) != RecoveryCode ==>
        State() == old(State()).(passwordInput := "", passwordError := WrongCodeMessage)
    {
      if passwordInput == RecoveryCode {
        adminPassword := DefaultPassword;
        showForgotPrompt := false;
        showPasswordPrompt := true;
        passwordInput := "";
        passwordError := "";
        toastMessage := PasswordResetToast;
      } else {
        passwordError := WrongCodeMessage;
        passwordInput := "";
      }
    }

    method ChangePassword()
      requires Valid()
      modifies this
      ensures Valid()
      ensures old(newPasswordInput) == "" ==>
        State() == old(State()).(toastMessage := EmptyPasswordToast)
      ensures 0 < |old(newPasswordInput)| < MinPasswordLength ==>
        State() == old(State()).(toastMessage := ShortPasswordToast)
      ensures |old(newPasswordInput)| >= MinPasswordLength ==>
        State() == old(State()).(doc := old(Doc()).(adminPassword := old(newPasswordInput)),
                                 newPasswordInput := "", toastMessage := PasswordChangedToast)
    {
      if newPasswordInput == "" {
        toastMessage := EmptyPasswordToast;
        return;
      }
      if |newPasswordInput| < MinPasswordLength {
        toastMessage := ShortPasswordToast;
        return;
      }
      adminPassword := newPasswordInput;
      newPasswordInput := "";
      toastMessage := PasswordChangedToast;
    }

    // -------------------------------------------------------------------------
    // Designers.

    method UpdateActiveDesigner(f: Designers.DesignerField)
      modifies this
      ensures State() == old(State()).(doc := old(Doc()).(designers := Designers.UpdateActive(old(designers), activeDesignerId, f)))
    {
      designers := Designers.UpdateActive(designers, activeDesignerId, f);
    }

    /** `stamp` is the clock reading the new id is made from. */
    method AddDesigner(stamp: nat)
      modifies this
      ensures State() == old(State()).(doc := old(Doc()).(designers := Designers.AppendDesigner(old(designers), stamp)),
                                       activeDesignerId := Some(Designers.NewDesignerId(stamp)))
    {
      designers := Designers.AppendDesigner(designers, stamp);
      activeDesignerId := Some(Designers.NewDesignerId(stamp));
    }

    method RemoveDesignerClick(id: string)
      modifies this
      ensures |old(designers)| <= 1 ==> State() == old(State()).(toastMessage := KeepOneDesignerToast)
      ensures |old(designers)| > 1 ==> State() == old(State()).(designerToDelete := Some(id))
    {
      if |designers| <= 1 {
        toastMessage := KeepOneDesignerToast;
        return;
      }
      designerToDelete := Some(id);
    }

    method ConfirmDeleteDesigner()
      modifies this
      ensures designers == Designers.RemoveDesigner(old(designers), old(designerToDelete))
      ensures activeDesignerId ==
        if old(activeDesignerId) == old(designerToDelete) then Designers.FallbackActiveId(designers) else old(activeDesignerId)
      ensures State() == old(State()).(doc := old(Doc()).(designers := designers), activeDesignerId := activeDesignerId,
                                       designerToDelete := None, toastMessage := DesignerDeletedToast)
    {
      var filtered := Designers.RemoveDesigner(designers, designerToDelete);
      designers := filtered;
      if activeDesignerId == designerToDelete {
        activeDesignerId := Designers.FallbackActiveId(filtered);
      }
      designerToDelete := None;
      toastMessage := DesignerDeletedToast;
    }

    // -------------------------------------------------------------------------
    // Schedules of the active designer. When there is no designer at all the
    // handlers throw on `activeDesigner.schedules`, and nothing changes.

    method AddSchedule()
      modifies this
      ensures State() == old(State()).(doc := old(Doc()).(designers :=
        match old(Active())
        case None => old(designers)
        case Some(d) => old(WithActiveSchedules(Schedules.AppendSchedule(d.schedules)))))
    {
      match Active()
      case None =>
      case Some(d) =>
        UpdateActiveDesigner(Designers.SetSchedules(Schedules.AppendSchedule(d.schedules)));
    }

    method RemoveSchedule(id: int)
      modifies this
      ensures State() == old(State()).(doc := old(Doc()).(designers :=
        match old(Active())
        case None => old(designers)
        case Some(d) => old(WithActiveSchedules(Schedules.RemoveSchedule(d.schedules, id)))))
    {
      match Active()
      case None =>
      case Some(d) =>
        UpdateActiveDesigner(Designers.SetSchedules(Schedules.RemoveSchedule(d.schedules, id)));
    }

    method UpdateSchedule(id: int, f: Schedules.ScheduleField)
      modifies this
      ensures State() == old(State()).(doc := old(Doc()).(designers :=
        match old(Active())
        case None => old(designers)
        case Some(d) => old(WithActiveSchedules(Schedules.UpdateSchedule(d.schedules, id, f)))))
    {
      match Active()
      case None =>
      case Some(d) =>
        UpdateActiveDesigner(Designers.SetSchedules(Schedules.UpdateSchedule(d.schedules, id, f)));
    }

    /** `cal` is what the browser's date parsing makes of a non-empty `dateString`. */
    method DateChange(id: int, dateString: string, cal: Schedules.CalendarDay)
      modifies this
      ensures State() == old(State()).(doc := old(Doc()).(designers :=
        match old(Active())
        case None => old(designers)
        case Some(d) => old(WithActiveSchedules(Schedules.DateChange(d.schedules, id, dateString, cal)))))
    {
      match Active()
      case None =>
      case Some(d) =>
        UpdateActiveDesigner(Designers.SetSchedules(Schedules.DateChange(d.schedules, id, dateString, cal)));
    }

    // -------------------------------------------------------------------------
    // The per-day editor: it works on the `schedule` it was rendered with and
    // reports the new slots through `UpdateSchedule`.

    method EditorAddTime(schedule: Schedule, newTime: string)
      modifies this
      ensures Slots.AddTime(schedule.times, newTime).None? ==> State() == old(State())
      ensures Slots.AddTime(schedule.times, newTime).Some? ==>
        State() == old(State()).(doc := old(Doc()).(designers :=
          match old(Active())
          case None => old(designers)
          case Some(d) => old(WithActiveSchedules(Schedules.UpdateSchedule(d.schedules, schedule.id,
                                 Schedules.SetTimes(Slots.AddTime(schedule.times, newTime).value))))))
    {
      match Slots.AddTime(schedule.times, newTime)
      case None =>
      case Some(times) =>
        UpdateSchedule(schedule.id, Schedules.SetTimes(times));
    }

    method EditorToggleSlot(schedule: Schedule, v: string)
      modifies this
      ensures State() == old(State()).(doc := old(Doc()).(designers :=
        match old(Active())
        case None => old(designers)
        case Some(d) => old(WithActiveSchedules(Schedules.UpdateSchedule(d.schedules, schedule.id,
                               Schedules.SetTimes(Slots.ToggleSlot(schedule.times, v)))))))
    {
      UpdateSchedule(schedule.id, Schedules.SetTimes(Slots.ToggleSlot(schedule.times, v)));
    }

    method EditorRemoveSlot(schedule: Schedule, v: string)
      modifies this
      ensures State() == old(State()).(doc := old(Doc()).(designers :=
        match old(Active())
        case None => old(designers)
        case Some(d) => old(WithActiveSchedules(Schedules.UpdateSchedule(d.schedules, schedule.id,
                               Schedules.SetTimes(Slots.RemoveSlot(schedule.times, v)))))))
    {
      UpdateSchedule(schedule.id, Schedules.SetTimes(Slots.RemoveSlot(schedule.times, v)));
    }

    // -------------------------------------------------------------------------
    // Synchronisation with the shared document.

    /**
     * The snapshot callback. In admin mode nothing local is overwritten and
     * nothing is written. Otherwise a present document replaces field by field
     * what it carries, and a missing one is created from the seed. Every
     * delivery, an error included, marks the first load as done.
     */
    method OnSnapshot(ev: SnapshotEvent) returns (write: Option<RemoteDoc>)
      requires Valid()
      modifies this
      ensures Valid()
      ensures write == if ev.Missing? && !old(isAdminMode) then Some(BootstrapDoc) else None
      ensures State() == old(State()).(
        doc := if ev.Exists? && !old(isAdminMode) then MergeIncoming(old(Doc()), ev.data) else old(Doc()),
        isCloudLoaded := true)
    {
      write := None;
      match ev {
        case Exists(data) =>
          if !isAdminMode {
            if data.designers.Some? {
              designers := data.designers.value;
            }
            if data.adminPassword.Some? && data.adminPassword.value != "" {
              adminPassword := data.adminPassword.value;
            }
            if data.lineOfficialId.Some? {
              lineOfficialId := data.lineOfficialId.value;
            }
            assert Doc() == MergeIncoming(old(Doc()), data);
          }
        case Missing =>
          if !isAdminMode {
            write := Some(BootstrapDoc);
          }
        case Failed =>
      }
      isCloudLoaded := true;
    }

    /**
     * The autosave effect, run after any change of the state it depends on:
     * the previous timer is cancelled, and a new one, holding the current
     * document, is started only when the guard holds.
     */
    method AutosaveEffect(signedIn: bool, hasDb: bool)
      modifies this
      ensures State() == old(State()).(pendingWrite :=
        if AutosaveArmed(isAdminMode, isCloudLoaded, signedIn, hasDb) then Some(Doc()) else None)
    {
      pendingWrite := None;
      if AutosaveArmed(isAdminMode, isCloudLoaded, signedIn, hasDb) {
        pendingWrite := Some(Doc());
      }
    }

    /** The autosave timer runs out: its document is written. */
    method AutosaveTimerElapsed() returns (write: Option<RemoteDoc>)
      modifies this
      ensures write == old(pendingWrite)
      ensures State() == old(State()).(pendingWrite := None)
    {
      write := pendingWrite;
      pendingWrite := None;
    }

    /**
     * The save button: the current document is written when signed in with a
     * database, and admin mode ends whether or not the write succeeds.
     */
    method ExplicitSave(signedIn: bool, hasDb: bool) returns (write: Option<RemoteDoc>)
      modifies this
      ensures write == if signedIn && hasDb then Some(old(Doc())) else None
      ensures State() == old(State()).(isAdminMode := false)
    {
      write := None;
      if signedIn && hasDb {
        write := Some(Doc());
      }
      isAdminMode := false;
    }
  }
}
