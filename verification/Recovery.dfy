/** The recovery worker of one device: a few delayed attempts to read its state. */
module Recovery {
  import opened Common
  import opened Ieee
  import opened Registry
  import opened HubState

  /** The delays of a recovery worker allow this many attempts. */
  const ATTEMPTS := 5

  /** The attempt at `i` was made: the device was still there, in use, and had not answered before. */
  ghost predicate Unanswered(d: Device, probes: seq<Probe>, n: nat)
    requires n <= |probes|
  {
    forall i :: 0 <= i < n ==> !Reached(d, probes[i])
  }

  /** A device after `n` attempts that were not answered. */
  function Silenced(d: Device, n: nat): Device {
    if n == 0 || !AsksOnOff(d) then d else Lost(d)
  }

  /**
   The loop of startRecovery's worker, with `probes` what the radio would answer at each attempt: it
   gives up after five attempts, stops at the first answer, and then leaves the device reachable and
   without error; it never touches another device.
   */
  method Recover(h: Hub, key: string, probes: seq<Probe>) returns (recovered: bool, attempts: nat)
    requires h.Valid() && |probes| == 5
    modifies h.devices.Values
    ensures h.Valid() && attempts <= 5
    ensures old(h.Device(key)).None? ==> !recovered && attempts == 0 && h.Model() == old(h.Model())
    ensures old(h.Device(key)).Some? && old(h.Device(key)).value.tag.archived ==>
              !recovered && attempts == 0 && h.Model() == old(h.Model())
    ensures old(h.Device(key)).Some? && !old(h.Device(key)).value.tag.archived ==>
              var d := old(h.Device(key)).value;
              && (recovered <==> exists i :: 0 <= i < |probes| && Reached(d, probes[i]))
              && (recovered ==> 0 < attempts && Unanswered(d, probes, attempts - 1) && Reached(d, probes[attempts - 1])
                                && h.Device(key).Some? && h.Device(key).value.link == UP)
              && (!recovered ==> attempts == 5
                                 && h.Model() == With(old(h.Model()), CompactIEEE(key), Silenced(d, 5)))
  {
    recovered, attempts := false, 0;
    ghost var base := h.Model();
    ghost var first := h.Device(key);
    assert first.Some? ==> base == With(base, CompactIEEE(key), first.value);
    for i := 0 to ATTEMPTS
      invariant h.Valid() && attempts == i && h.devices == old(h.devices) && !recovered
      invariant first.None? ==> i == 0 && h.Model() == base
      invariant first.Some? && first.value.tag.archived ==> i == 0 && h.Model() == base
      invariant first.Some? ==> Unanswered(first.value, probes, i)
      invariant first.Some? ==> h.Device(key) == Some(Silenced(first.value, i))
      invariant first.Some? ==> h.Model() == With(base, CompactIEEE(key), Silenced(first.value, i))
    {
      var d := h.Device(key);
      if d.None? || d.value.tag.archived {
        return;
      }
      ReachedIsUp(d.value, probes[i]);
      SilencedStays(first.value, probes[i], i);
      recovered := h.ReadState(key, probes[i]);
      attempts := attempts + 1;
      if recovered {
        return;
      }
      WithTwice(base, CompactIEEE(key), d.value, Silenced(first.value, i + 1));
      assert h.Model().devices[CompactIEEE(key)] == Silenced(first.value, i + 1);
    }
  }

  /** An unanswered attempt marks a device unreachable if it can be switched, and nothing more. */
  lemma SilencedStays(d: Device, p: Probe, n: nat)
    ensures Reached(Silenced(d, n), p) == Reached(d, p)
    ensures !Reached(d, p) ==> AfterProbe(Silenced(d, n), p) == Silenced(d, n + 1)
    ensures Silenced(d, n).tag == d.tag
  {
  }
}
