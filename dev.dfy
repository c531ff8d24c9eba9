/**
 * The developer/audit settings store (src/lib/stores/dev.ts): a state cell
 * replaced by every setter, persisted to `localStorage` when running in a
 * browser. `localStorage` is the map `storage`; a stored JSON text is kept
 * as the fields it parses back to.
 */
module DevTools {
  import opened Wrappers

  datatype DevState = DevState(
    isMockTimeActive: bool,
    mockTime: Option<int>,
    auditTrailEnabled: bool,
    gdprModeEnabled: bool,
    restrictUndoToAdmin: bool,
    requireUndoApproval: bool,
    auditLogRetentionDays: int,
    auditBatchingEnabled: bool)

  /** `initialState` */
  const InitialState := DevState(false, None, true, false, false, false, 90, true)

  /** The fields present in a parsed JSON object (absent fields are `None`). */
  datatype Overlay = Overlay(
    isMockTimeActive: Option<bool>,
    mockTime: Option<Option<int>>,
    auditTrailEnabled: Option<bool>,
    gdprModeEnabled: Option<bool>,
    restrictUndoToAdmin: Option<bool>,
    requireUndoApproval: Option<bool>,
    auditLogRetentionDays: Option<int>,
    auditBatchingEnabled: Option<bool>)

  /** A `localStorage` value: a JSON object, a mock-time ISO string, or text that does not parse as an object. */
  datatype Stored = SavedObject(fields: Overlay) | SavedMockTime(ms: int) | Unparsable

  const SettingsKey := "dev_audit_settings"
  const MockTimeKey := "dev_mock_time"

  /** `{ ...base, ...overlay }` */
  function Spread(base: DevState, o: Overlay): DevState {
    DevState(
      o.isMockTimeActive.GetOr(base.isMockTimeActive),
      o.mockTime.GetOr(base.mockTime),
      o.auditTrailEnabled.GetOr(base.auditTrailEnabled),
      o.gdprModeEnabled.GetOr(base.gdprModeEnabled),
      o.restrictUndoToAdmin.GetOr(base.restrictUndoToAdmin),
      o.requireUndoApproval.GetOr(base.requireUndoApproval),
      o.auditLogRetentionDays.GetOr(base.auditLogRetentionDays),
      o.auditBatchingEnabled.GetOr(base.auditBatchingEnabled))
  }

  /** `JSON.parse(JSON.stringify(state))`: every field present. */
  function Saved(st: DevState): Overlay {
    Overlay(Some(st.isMockTimeActive), Some(st.mockTime), Some(st.auditTrailEnabled), Some(st.gdprModeEnabled),
            Some(st.restrictUndoToAdmin), Some(st.requireUndoApproval), Some(st.auditLogRetentionDays),
            Some(st.auditBatchingEnabled))
  }

  /** The state `init` sets from what is stored under the settings key. */
  function Restored(storage: map<string, Stored>): DevState {
    if SettingsKey in storage && storage[SettingsKey].SavedObject? then Spread(InitialState, storage[SettingsKey].fields)
    else InitialState
  }

  /**
   * A state without a mock time, persisted by a setter, is restored as it
   * was by the next `init`. (A set `mockTime` is a `Date`, which the JSON
   * text holds as an ISO string and `init` spreads back as that string.)
   */
  lemma SavedStateIsRestored(storage: map<string, Stored>, st: DevState)
    requires st.mockTime.None?
    ensures Restored(storage[SettingsKey := SavedObject(Saved(st))]) == st
  {
  }

  /** An absent or unparsable saved state leaves `init` with the initial state. */
  lemma NothingSavedGivesInitial(storage: map<string, Stored>)
    requires SettingsKey !in storage || !storage[SettingsKey].SavedObject?
    ensures Restored(storage) == InitialState
    ensures InitialState.auditTrailEnabled && !InitialState.gdprModeEnabled && InitialState.auditLogRetentionDays == 90
  {
  }

  class DevStore {
    var state: DevState
    var storage: map<string, Stored>
    const browser: bool

    constructor (browser: bool, storage: map<string, Stored>)
      ensures state == InitialState && this.storage == storage && this.browser == browser
    {
      state := InitialState;
      this.storage := storage;
      this.browser := browser;
    }

    /** `init` */
    method Init()
      modifies this
      ensures storage == old(storage)
      ensures state == if browser then Restored(storage) else old(state)
    {
      if !browser {
        return;
      }
      if SettingsKey in storage && storage[SettingsKey].SavedObject? {
        state := Spread(InitialState, storage[SettingsKey].fields);
      } else {
        state := InitialState;
      }
    }

    /** `setMockTime`: the mock fields are set and every other field is back to its initial value. */
    method SetMockTime(ms: int)
      modifies this
      ensures !browser ==> state == old(state) && storage == old(storage)
      ensures browser ==> storage == old(storage)[MockTimeKey := SavedMockTime(ms)]
      ensures browser ==> state == InitialState.(isMockTimeActive := true, mockTime := Some(ms))
    {
      if !browser {
        return;
      }
      storage := storage[MockTimeKey := SavedMockTime(ms)];
      state := InitialState.(isMockTimeActive := true, mockTime := Some(ms));
    }

    /** `clearMockTime`: only the two mock fields change. */
    method ClearMockTime()
      modifies this
      ensures !browser ==> state == old(state) && storage == old(storage)
      ensures browser ==> storage == old(storage) - {MockTimeKey}
      ensures browser ==> state == old(state).(isMockTimeActive := false, mockTime := None)
    {
      if !browser {
        return;
      }
      storage := storage - {MockTimeKey};
      state := state.(isMockTimeActive := false, mockTime := None);
    }

    /** Replace the state and persist it under the settings key when in a browser. */
    method Commit(newState: DevState)
      modifies this
      ensures state == newState
      ensures storage == if browser then old(storage)[SettingsKey := SavedObject(Saved(newState))] else old(storage)
    {
      if browser {
        storage := storage[SettingsKey := SavedObject(Saved(newState))];
      }
      state := newState;
    }

    method SetAuditTrailEnabled(enabled: bool)
      modifies this
      ensures state == old(state).(auditTrailEnabled := enabled)
      ensures storage == if browser then old(storage)[SettingsKey := SavedObject(Saved(state))] else old(storage)
    {
      Commit(state.(auditTrailEnabled := enabled));
    }

    method SetGdprModeEnabled(enabled: bool)
      modifies this
      ensures state == old(state).(gdprModeEnabled := enabled)
      ensures storage == if browser then old(storage)[SettingsKey := SavedObject(Saved(state))] else old(storage)
    {
      Commit(state.(gdprModeEnabled := enabled));
    }

    method SetRestrictUndoToAdmin(restricted: bool)
      modifies this
      ensures state == old(state).(restrictUndoToAdmin := restricted)
      ensures storage == if browser then old(storage)[SettingsKey := SavedObject(Saved(state))] else old(storage)
    {
      Commit(state.(restrictUndoToAdmin := restricted));
    }

    method SetRequireUndoApproval(required: bool)
      modifies this
      ensures state == old(state).(requireUndoApproval := required)
      ensures storage == if browser then old(storage)[SettingsKey := SavedObject(Saved(state))] else old(storage)
    {
      Commit(state.(requireUndoApproval := required));
    }

    method SetAuditLogRetentionDays(days: int)
      modifies this
      ensures state == old(state).(auditLogRetentionDays := days)
      ensures storage == if browser then old(storage)[SettingsKey := SavedObject(Saved(state))] else old(storage)
    {
      Commit(state.(auditLogRetentionDays := days));
    }

    method SetAuditBatchingEnabled(enabled: bool)
      modifies this
      ensures state == old(state).(auditBatchingEnabled := enabled)
      ensures storage == if browser then old(storage)[SettingsKey := SavedObject(Saved(state))] else old(storage)
    {
      Commit(state.(auditBatchingEnabled := enabled));
    }

    /** `resetAuditSettings` */
    method ResetAuditSettings()
      modifies this
      ensures !browser ==> state == old(state) && storage == old(storage)
      ensures browser ==> state == InitialState && storage == old(storage) - {SettingsKey}
    {
      if !browser {
        return;
      }
      storage := storage - {SettingsKey};
      state := InitialState;
    }
  }
}
