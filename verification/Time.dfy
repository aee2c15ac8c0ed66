/** Timestamps as nanoseconds since the zero time, and their canonical form of
    internal/domain/time.go. */
module Time {
  type Time = int

  predicate IsZero(t: Time) { t == 0 }

  /** `NormalizeUTCMicro`: `Truncate` rounds towards the past, also before the
      zero time. */
  function NormalizeUTCMicro(t: Time): Time {
    if IsZero(t) then t else t - t % 1000
  }

  predicate SameMicrosecond(t: Time, u: Time) { t / 1000 == u / 1000 }

  /** Normalising rounds down to a whole microsecond. It keeps order, is done once and for all, and identifies exactly
      the times of one microsecond. */
  lemma NormalizeLaws(t: Time, u: Time)
    ensures NormalizeUTCMicro(t) == 1000 * (t / 1000)
    ensures NormalizeUTCMicro(NormalizeUTCMicro(t)) == NormalizeUTCMicro(t)
    ensures t <= u ==> NormalizeUTCMicro(t) <= NormalizeUTCMicro(u)
    ensures NormalizeUTCMicro(t) == NormalizeUTCMicro(u) <==> SameMicrosecond(t, u)
    ensures IsZero(NormalizeUTCMicro(t)) <==> 0 <= t < 1000
  {
    assert NormalizeUTCMicro(t) == 1000 * (t / 1000) && NormalizeUTCMicro(u) == 1000 * (u / 1000);
  }
}
