/**
 * Signup-prompt gating for anonymous visitors: a completion counter and two
 * timestamps (last dismissal, last showing), and the rule that combines them.
 *
 * The three `localStorage` keys are the three fields of a `SessionTracker`
 * object, each `None` while its key is absent. `Date.now()` is the parameter
 * `now`, in milliseconds.
 */
module SessionTracking {
  import opened Wrappers

  /** The prompt appears only after this many completed practice sessions. */
  const MinCompletions: int := 3
  /** `7 * 24 * 60 * 60 * 1000`: how long a dismissal silences the prompt. */
  const DismissCooldownMs: int := 604800000
  /** `60 * 60 * 1000`: how long after being shown the prompt stays away. */
  const ShowCooldownMs: int := 3600000

  /** A stored timestamp that is still within `cooldown` of `now`. */
  predicate Recent(stamp: Option<int>, now: int, cooldown: int) {
    stamp.Some? && now - stamp.value < cooldown
  }

  class SessionTracker {
    /** `eduba_practice_completions`. */
    var completions: Option<int>
    /** `eduba_signup_dismissed_at`. */
    var dismissedAt: Option<int>
    /** `eduba_signup_last_shown_at`. */
    var lastShownAt: Option<int>

    /** A browser with none of the three keys stored. */
    constructor ()
      ensures completions.None? && dismissedAt.None? && lastShownAt.None?
    {
      completions, dismissedAt, lastShownAt := None, None, None;
    }

    /** `getPracticeCompletions()`: the stored count, or 0 when there is none. */
    function GetPracticeCompletions(): (count: int)
      reads this
      ensures completions.None? ==> count == 0
      ensures completions.Some? ==> count == completions.value
    {
      completions.GetOr(0)
    }

    /** `incrementPracticeCompletions()`: stores and returns one more than the current count. */
    method IncrementPracticeCompletions() returns (newCount: int)
      modifies this
      ensures newCount == old(GetPracticeCompletions()) + 1
      ensures completions == Some(newCount)
      ensures dismissedAt == old(dismissedAt) && lastShownAt == old(lastShownAt)
    {
      var current := GetPracticeCompletions();
      newCount := current + 1;
      completions := Some(newCount);
    }

    /**
     * `shouldShowSignupPrompt()` at time `now`: not before three completions,
     * not within seven days of a dismissal, not within an hour of the last
     * showing.
     */
    function ShouldShowSignupPrompt(now: int): (show: bool)
      reads this
      ensures GetPracticeCompletions() < MinCompletions ==> !show
      ensures Recent(dismissedAt, now, DismissCooldownMs) ==> !show
      ensures Recent(lastShownAt, now, ShowCooldownMs) ==> !show
    {
      if GetPracticeCompletions() < MinCompletions then false
      else if dismissedAt.Some? && now - dismissedAt.value < DismissCooldownMs then false
      else if lastShownAt.Some? && now - lastShownAt.value < ShowCooldownMs then false
      else true
    }

    /** `markSignupPromptShown()` at time `now`. */
    method MarkSignupPromptShown(now: int)
      modifies this
      ensures lastShownAt == Some(now)
      ensures completions == old(completions) && dismissedAt == old(dismissedAt)
      ensures !ShouldShowSignupPrompt(now)
    {
      lastShownAt := Some(now);
    }

    /** `markSignupPromptDismissed()` at time `now`. */
    method MarkSignupPromptDismissed(now: int)
      modifies this
      ensures dismissedAt == Some(now)
      ensures completions == old(completions) && lastShownAt == old(lastShownAt)
      ensures !ShouldShowSignupPrompt(now)
    {
      dismissedAt := Some(now);
    }

    /** `resetSessionTracking()`: removes all three keys. */
    method ResetSessionTracking()
      modifies this
      ensures completions.None? && dismissedAt.None? && lastShownAt.None?
      ensures GetPracticeCompletions() == 0
      ensures forall now :: !ShouldShowSignupPrompt(now)
    {
      completions, dismissedAt, lastShownAt := None, None, None;
    }
  }

  /** The gating rule on the three stored values, as a function of them alone. */
  predicate Gate(completions: Option<int>, dismissedAt: Option<int>, lastShownAt: Option<int>, now: int)
  {
    && completions.GetOr(0) >= MinCompletions
    && !Recent(dismissedAt, now, DismissCooldownMs)
    && !Recent(lastShownAt, now, ShowCooldownMs)
  }

  /** The prompt shows exactly when there are enough completions and neither cooldown applies. */
  lemma ShouldShowIsGate(t: SessionTracker, now: int)
    ensures t.ShouldShowSignupPrompt(now) == Gate(t.completions, t.dismissedAt, t.lastShownAt, now)
  {
  }

  /** Left alone, the prompt never stops being due: the cooldowns only expire as time passes. */
  lemma GateMonotoneInTime(completions: Option<int>, dismissedAt: Option<int>, lastShownAt: Option<int>, now: int, later: int)
    requires now <= later && Gate(completions, dismissedAt, lastShownAt, now)
    ensures Gate(completions, dismissedAt, lastShownAt, later)
  {
  }

  /** Shown at `t` with enough completions and no dismissal, the prompt is due again from `t` plus one hour and not before. */
  lemma ShowCooldownExact(completions: Option<int>, t: int, now: int)
    requires completions.GetOr(0) >= MinCompletions
    ensures Gate(completions, None, Some(t), now) <==> now >= t + ShowCooldownMs
  {
  }

  /** Dismissed at `t`, the prompt is silent for seven days whatever else happens. */
  lemma DismissCooldownExact(completions: Option<int>, t: int, lastShownAt: Option<int>, now: int)
    requires now < t + DismissCooldownMs
    ensures !Gate(completions, Some(t), lastShownAt, now)
  {
  }

  /** Three increments from a fresh start reach the threshold; two do not. */
  lemma ThirdCompletionUnlocks(dismissedAt: Option<int>, lastShownAt: Option<int>, now: int)
    requires !Recent(dismissedAt, now, DismissCooldownMs) && !Recent(lastShownAt, now, ShowCooldownMs)
    ensures !Gate(Some(2), dismissedAt, lastShownAt, now)
    ensures Gate(Some(3), dismissedAt, lastShownAt, now)
  {
  }
}
