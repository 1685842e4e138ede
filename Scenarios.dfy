/**
 * End-to-end runs of the app's handlers, proved from their contracts alone:
 * what a client of the engine can rely on.
 */
module Scenarios {
  import opened Wrappers
  import opened Roster
  import Slots
  import Schedules
  import Designers
  import Decimal
  import Lex
  import opened Sync
  import opened App

  /** The seed roster satisfies every invariant the editor keeps. */
  lemma SeedIsWellFormed()
    ensures Designers.UniqueDesignerIds(InitialDesigners())
    ensures forall d :: d in InitialDesigners() ==> Schedules.WellFormedSchedules(d.schedules)
  {
    var ss := InitialDesigners()[0].schedules;
    SeedSlotsWellFormed(ss[0].times, "11:00", "13:00", "15:00", "17:00");
    SeedSlotsWellFormed(ss[1].times, "13:00", "15:00", "19:00", "19:00");
    SeedSlotsWellFormed(ss[2].times, "11:00", "15:00", "17:00", "19:00");
    assert forall s :: s in ss ==> s == ss[0] || s == ss[1] || s == ss[2];
  }

  /** Three or four seed slots whose values increase at the second digit are well-formed. */
  lemma SeedSlotsWellFormed(times: seq<TimeSlot>, a: string, b: string, c: string, d: string)
    requires 3 <= |times| <= 4 && times[0].val == a && times[1].val == b && times[2].val == c
    requires |times| == 4 ==> times[3].val == d
    requires |a| == |b| == |c| == |d| == 5 && a[0] == b[0] == c[0] == d[0]
    requires a[1] < b[1] < c[1] && (|times| == 4 ==> c[1] < d[1])
    ensures Slots.WellFormedTimes(times)
  {
    Lex.LeBySecond(a, b);
    Lex.LeBySecond(b, c);
    if |times| == 4 {
      Lex.LeBySecond(c, d);
    }
    Slots.StrictlyIncreasingIsWellFormed(times);
  }

  /** Adding a time the seed day already has is refused, so its slots keep their length. */
  lemma SeedRejectsDuplicateTime()
    ensures Slots.AddTime(InitialDesigners()[0].schedules[0].times, "13:00").None?
  {
  }

  /** No document yet: the seed is written once; once it reads back, nothing more is written. */
  method FirstLoadCreatesDocumentOnce() returns (first: Option<RemoteDoc>, second: Option<RemoteDoc>, seedName: string)
    ensures first == Some(BootstrapDoc) && second == None
    ensures seedName == "魚魚"
  {
    var app := new App();
    first := app.OnSnapshot(Missing);
    second := app.OnSnapshot(Exists(AsData(BootstrapDoc)));
    seedName := app.designers[0].name;
  }

  /** "ab" is refused, "abcd" accepted; then the old password no longer opens admin mode and the new one does. */
  method PasswordChangeThenLogin() returns (afterShort: string, afterLong: string, oldOpens: bool, newOpens: bool)
    ensures afterShort == DefaultPassword && afterLong == "abcd"
    ensures !oldOpens && newOpens
  {
    var app := new App();
    app.newPasswordInput := "ab";
    app.ChangePassword();
    afterShort := app.adminPassword;
    app.newPasswordInput := "abcd";
    app.ChangePassword();
    afterLong := app.adminPassword;
    app.passwordInput := DefaultPassword;
    app.AdminLogin();
    oldOpens := app.isAdminMode;
    app.passwordInput := "abcd";
    app.AdminLogin();
    newOpens := app.isAdminMode;
  }

  /** While editing, a remote roster is ignored; the save writes the local roster and the next snapshot applies. */
  method EditingShieldsLocalRoster(remote: seq<Designer>) returns (whileEditing: seq<Designer>, echo: Option<RemoteDoc>, saved: Option<RemoteDoc>, afterSave: seq<Designer>)
    ensures whileEditing == InitialDesigners() && echo == None
    ensures saved == Some(BootstrapDoc)
    ensures afterSave == remote
  {
    var app := new App();
    app.passwordInput := DefaultPassword;
    app.AdminLogin();
    echo := app.OnSnapshot(Exists(RemoteData(Some(remote), None, None)));
    whileEditing := app.designers;
    saved := app.ExplicitSave(true, true);
    var ignored := app.OnSnapshot(Exists(RemoteData(Some(remote), None, None)));
    afterSave := app.designers;
  }

  /** Two quick edits in admin mode produce one autosave write, holding the second edit. */
  method AutosaveWritesLatestOnly() returns (write: Option<RemoteDoc>, again: Option<RemoteDoc>)
    ensures write == Some(RemoteDoc(Designers.UpdateActive(InitialDesigners(), Some("d1"), Designers.SetName("B")), DefaultPassword, ""))
    ensures again == None
  {
    var app := new App();
    var first := app.OnSnapshot(Failed);
    app.passwordInput := DefaultPassword;
    app.AdminLogin();
    assert app.isAdminMode && app.isCloudLoaded && app.designers == InitialDesigners() && app.activeDesignerId == Some("d1");
    app.UpdateActiveDesigner(Designers.SetName("A"));
    app.AutosaveEffect(true, true);
    app.UpdateActiveDesigner(Designers.SetName("B"));
    Designers.UpdateActiveLastWins(InitialDesigners(), Some("d1"), Designers.SetName("A"), Designers.SetName("B"));
    assert app.Doc() == RemoteDoc(Designers.UpdateActive(InitialDesigners(), Some("d1"), Designers.SetName("B")), DefaultPassword, "");
    app.AutosaveEffect(true, true);
    write := app.AutosaveTimerElapsed();
    again := app.AutosaveTimerElapsed();
  }

  /** An explicit save leaves admin mode, so the autosave effect that follows starts no timer. */
  method SaveDisarmsAutosave(edit: Designers.DesignerField) returns (saved: Option<RemoteDoc>, pending: Option<RemoteDoc>)
    ensures saved.Some? && pending == None
  {
    var app := new App();
    var first := app.OnSnapshot(Failed);
    app.passwordInput := DefaultPassword;
    app.AdminLogin();
    app.UpdateActiveDesigner(edit);
    app.AutosaveEffect(true, true);
    assert app.pendingWrite.Some?;
    saved := app.ExplicitSave(true, true);
    app.AutosaveEffect(true, true);
    pending := app.AutosaveTimerElapsed();
  }

  /** The last designer cannot be deleted; a second one can, and the first becomes active again. */
  method AddThenDeleteDesigner(stamp: nat) returns (refused: Option<string>, count: nat, active: Option<string>)
    requires stamp != 1
    ensures refused == None
    ensures count == 1 && active == Some("d1")
  {
    var app := new App();
    app.RemoveDesignerClick("d1");
    refused := app.designerToDelete;
    var newId := Designers.NewDesignerId(stamp);
    assert newId != "d1" by {
      if newId == "d1" {
        assert Decimal.FromNat(stamp) == newId[1..] == Decimal.FromNat(1);
        Decimal.FromNatInjective(stamp, 1);
      }
    }
    app.AddDesigner(stamp);
    app.RemoveDesignerClick(newId);
    app.ConfirmDeleteDesigner();
    assert Designers.RemoveDesigner([Designers.NewDesigner(stamp)], Some(newId)) == [];
    count := |app.designers|;
    active := app.activeDesignerId;
  }
}
