/**
 * The shared remote document and the rules that decide what an incoming
 * snapshot may overwrite locally and when the autosave may be armed.
 */
module Sync {
  import opened Wrappers
  import opened Roster

  /** The document as the app writes it: always all three fields. */
  datatype RemoteDoc = RemoteDoc(designers: seq<Designer>, adminPassword: string, lineOfficialId: string)

  /** The document as a snapshot delivers it: a field may be absent. */
  datatype RemoteData = RemoteData(designers: Option<seq<Designer>>, adminPassword: Option<string>, lineOfficialId: Option<string>)

  /** One delivery of the subscription: the document, its absence, or a read error. */
  datatype SnapshotEvent = Exists(data: RemoteData) | Missing | Failed

  const DefaultPassword: string := "admin"

  /** What is written when the document does not exist yet. */
  const BootstrapDoc: RemoteDoc := RemoteDoc(InitialDesigners(), DefaultPassword, "")

  /** How a written document reads back. */
  function AsData(doc: RemoteDoc): RemoteData
  {
    RemoteData(Some(doc.designers), Some(doc.adminPassword), Some(doc.lineOfficialId))
  }

  /**
   * The per-field replace a snapshot performs outside admin mode: the designers
   * when present, the password when present and non-empty, the LINE id when
   * present (even when empty).
   */
  function MergeIncoming(local: RemoteDoc, data: RemoteData): (r: RemoteDoc)
    ensures data.designers.Some? ==> r.designers == data.designers.value
    ensures data.designers.None? ==> r.designers == local.designers
    ensures r.adminPassword != local.adminPassword ==> data.adminPassword == Some(r.adminPassword) && r.adminPassword != ""
    ensures data.adminPassword.Some? && data.adminPassword.value != "" ==> r.adminPassword == data.adminPassword.value
    ensures data.lineOfficialId.Some? ==> r.lineOfficialId == data.lineOfficialId.value
    ensures data.lineOfficialId.None? ==> r.lineOfficialId == local.lineOfficialId
  {
    RemoteDoc(
      if data.designers.Some? then data.designers.value else local.designers,
      if data.adminPassword.Some? && data.adminPassword.value != "" then data.adminPassword.value else local.adminPassword,
      if data.lineOfficialId.Some? then data.lineOfficialId.value else local.lineOfficialId)
  }

  /** A non-empty password is never replaced by an empty one. */
  lemma MergeKeepsPasswordSet(local: RemoteDoc, data: RemoteData)
    requires local.adminPassword != ""
    ensures MergeIncoming(local, data).adminPassword != ""
  {
  }

  /** Reading back a written document with a password restores it exactly, whatever the local state was. */
  lemma MergeWrittenDoc(local: RemoteDoc, doc: RemoteDoc)
    requires doc.adminPassword != ""
    ensures MergeIncoming(local, AsData(doc)) == doc
  {
  }

  /** A snapshot with no fields changes nothing. */
  lemma MergeEmptyData(local: RemoteDoc)
    ensures MergeIncoming(local, RemoteData(None, None, None)) == local
  {
  }

  /** Applying the same snapshot twice is the same as applying it once. */
  lemma MergeIdempotent(local: RemoteDoc, data: RemoteData)
    ensures MergeIncoming(MergeIncoming(local, data), data) == MergeIncoming(local, data)
  {
  }

  /**
   * The autosave runs only in admin mode, after the first snapshot, signed in
   * and with a database: before the first snapshot it never arms, so the seed
   * roster cannot overwrite the shared document.
   */
  predicate AutosaveArmed(isAdminMode: bool, isCloudLoaded: bool, signedIn: bool, hasDb: bool): (r: bool)
    ensures !isCloudLoaded ==> !r
    ensures !isAdminMode ==> !r
    ensures !signedIn || !hasDb ==> !r
  {
    isAdminMode && isCloudLoaded && signedIn && hasDb
  }
}
