/** The onboarding pager (components/Onboarding.tsx), reduced to its `currentIndex` state,
    the write of the `onboarding_completed` key and the `onComplete` calls. */
module Onboarding {
  import opened Js
  import opened KeyValue
  import UseOnboarding

  /** `onboardingData.length`: the four pages. */
  const PageCount := 4

  /** `isLast`: the page is the final one. */
  predicate IsLast(index: int)
    ensures IsLast(index) <==> index == 3
  {
    index == PageCount - 1
  }

  /** The index a viewability change reports: `viewableItems[0].index || 0`. */
  function FirstViewable(viewable: seq<Option<int>>): (index: int)
    requires viewable != []
    ensures viewable[0].Some? && viewable[0].value != 0 ==> index == viewable[0].value
    ensures viewable[0].None? || viewable[0] == Some(0) ==> index == 0
  {
    match viewable[0]
    case Some(i) => if i != 0 then i else 0
    case None => 0
  }

  /** The pager reports only indices of its own pages. */
  predicate PageTokens(viewable: seq<Option<int>>) {
    forall k :: 0 <= k < |viewable| && viewable[k].Some? ==> 0 <= viewable[k].value < PageCount
  }

  class OnboardingState {
    const storage: KeyValueStore
    var currentIndex: int
    /** How many times `onComplete` has been called. */
    var completions: nat

    /** The current index names a page. */
    ghost predicate Valid()
      reads this
    {
      0 <= currentIndex < PageCount
    }

    constructor (storage: KeyValueStore)
      ensures this.storage == storage && currentIndex == 0 && completions == 0
      ensures Valid()
    {
      this.storage := storage;
      currentIndex := 0;
      completions := 0;
    }

    /** `completeOnboarding`: writes the key, then calls `onComplete` exactly once, whether
        or not the write threw. */
    method CompleteOnboarding(write: Access)
      modifies this, storage
      ensures storage.entries == if write == Succeeds then old(storage.entries)[UseOnboarding.OnboardingKey := UseOnboarding.CompletedValue] else old(storage.entries)
      ensures completions == old(completions) + 1
      ensures currentIndex == old(currentIndex)
    {
      var ok := storage.SetItem(UseOnboarding.OnboardingKey, UseOnboarding.CompletedValue, write);
      if ok {
        completions := completions + 1;
      } else {
        completions := completions + 1;
      }
    }

    /** `handleNext`: before the last page it moves on by one page; on the last page it
        completes the onboarding and stays where it is. */
    method HandleNext(write: Access)
      requires Valid()
      modifies this, storage
      ensures Valid()
      ensures !IsLast(old(currentIndex)) ==>
        currentIndex == old(currentIndex) + 1 && completions == old(completions) && storage.entries == old(storage.entries)
      ensures IsLast(old(currentIndex)) ==>
        && currentIndex == old(currentIndex) && completions == old(completions) + 1
        && storage.entries == if write == Succeeds then old(storage.entries)[UseOnboarding.OnboardingKey := UseOnboarding.CompletedValue] else old(storage.entries)
    {
      if currentIndex < PageCount - 1 {
        var nextIndex := currentIndex + 1;
        currentIndex := nextIndex;
      } else {
        CompleteOnboarding(write);
      }
    }

    /** `handleSkip`: completes the onboarding from any page. */
    method HandleSkip(write: Access)
      modifies this, storage
      ensures storage.entries == if write == Succeeds then old(storage.entries)[UseOnboarding.OnboardingKey := UseOnboarding.CompletedValue] else old(storage.entries)
      ensures completions == old(completions) + 1
      ensures currentIndex == old(currentIndex)
    {
      CompleteOnboarding(write);
    }

    /** `onViewableItemsChanged`: a non-empty report moves to its first index; an empty one
        changes nothing. */
    method OnViewableItemsChanged(viewable: seq<Option<int>>)
      requires Valid() && PageTokens(viewable)
      modifies this
      ensures viewable != [] ==> currentIndex == FirstViewable(viewable)
      ensures viewable == [] ==> currentIndex == old(currentIndex)
      ensures completions == old(completions)
      ensures Valid()
    {
      if |viewable| > 0 {
        currentIndex := FirstViewable(viewable);
      }
    }
  }

  /** Pressing next from the first page walks through the pages one by one and never leaves
      them; on the last page each further press completes once more and writes the completed
      key again. */
  method PressNext(pager: OnboardingState, presses: nat, write: Access)
    requires pager.Valid() && pager.currentIndex == 0
    modifies pager, pager.storage
    ensures pager.Valid()
    ensures pager.currentIndex == if presses < PageCount then presses else PageCount - 1
    ensures pager.completions == old(pager.completions) + (if presses < PageCount then 0 else presses - (PageCount - 1))
    ensures pager.storage.entries == if presses >= PageCount && write == Succeeds then old(pager.storage.entries)[UseOnboarding.OnboardingKey := UseOnboarding.CompletedValue] else old(pager.storage.entries)
  {
    var n := 0;
    while n < presses
      invariant 0 <= n <= presses
      invariant pager.Valid()
      invariant pager.currentIndex == if n < PageCount then n else PageCount - 1
      invariant pager.completions == old(pager.completions) + (if n < PageCount then 0 else n - (PageCount - 1))
      invariant pager.storage.entries == if n >= PageCount && write == Succeeds then old(pager.storage.entries)[UseOnboarding.OnboardingKey := UseOnboarding.CompletedValue] else old(pager.storage.entries)
    {
      pager.HandleNext(write);
      n := n + 1;
    }
  }
}
