/** The first-run flag (hooks/useOnboarding.ts): `isOnboardingCompleted` (null until the first
    check) and `isLoading`, kept in step with the `onboarding_completed` key of the device store. */
module UseOnboarding {
  import opened Js
  import opened KeyValue

  /** The key the flag is kept under, and the value that means "done". */
  const OnboardingKey := "onboarding_completed"
  const CompletedValue := "true"

  /** The flag a check derives from the store: true exactly when the read succeeds and the
      key holds the string "true". */
  function CheckedFlag(entries: map<string, string>, read: Access): (done: bool)
    ensures done <==> read == Succeeds && OnboardingKey in entries && entries[OnboardingKey] == CompletedValue
  {
    match read
    case Fails => false
    case Succeeds => Lookup(entries, OnboardingKey) == Some(CompletedValue)
  }

  /** A check after a successful complete finds the flag set; after a successful reset,
      clear; and a value other than "true" counts as not done. */
  lemma CheckAfterCompleteAndReset(entries: map<string, string>, other: string)
    requires other != CompletedValue
    ensures CheckedFlag(entries[OnboardingKey := CompletedValue], Succeeds)
    ensures !CheckedFlag(entries - {OnboardingKey}, Succeeds)
    ensures !CheckedFlag(entries[OnboardingKey := other], Succeeds)
  {
  }

  class OnboardingStatus {
    const storage: KeyValueStore
    var isOnboardingCompleted: Option<bool>
    var isLoading: bool

    constructor (storage: KeyValueStore)
      ensures this.storage == storage && isOnboardingCompleted == None && isLoading
    {
      this.storage := storage;
      isOnboardingCompleted := None;
      isLoading := true;
    }

    /** `checkOnboardingStatus`: reads the key; a read error counts as not done; loading
        ends on every path. */
    method CheckOnboardingStatus(read: Access)
      modifies this
      ensures isOnboardingCompleted == Some(CheckedFlag(storage.entries, read))
      ensures !isLoading
    {
      var status := storage.GetItem(OnboardingKey, read);
      match status {
        case Value(item) =>
          isOnboardingCompleted := Some(item == Some(CompletedValue));
        case ReadError =>
          isOnboardingCompleted := Some(false);
      }
      isLoading := false;
    }

    /** `completeOnboarding`: stores "true", then sets the flag; a failed write leaves the
        flag as it was. */
    method CompleteOnboarding(write: Access)
      modifies this, storage
      ensures storage.entries == if write == Succeeds then old(storage.entries)[OnboardingKey := CompletedValue] else old(storage.entries)
      ensures isOnboardingCompleted == if write == Succeeds then Some(true) else old(isOnboardingCompleted)
      ensures isLoading == old(isLoading)
    {
      var ok := storage.SetItem(OnboardingKey, CompletedValue, write);
      if ok {
        isOnboardingCompleted := Some(true);
      }
    }

    /** `resetOnboarding`: removes the key, then clears the flag; a failed remove leaves the
        flag as it was. */
    method ResetOnboarding(write: Access)
      modifies this, storage
      ensures storage.entries == if write == Succeeds then old(storage.entries) - {OnboardingKey} else old(storage.entries)
      ensures isOnboardingCompleted == if write == Succeeds then Some(false) else old(isOnboardingCompleted)
      ensures isLoading == old(isLoading)
    {
      var ok := storage.RemoveItem(OnboardingKey, write);
      if ok {
        isOnboardingCompleted := Some(false);
      }
    }
  }
}
