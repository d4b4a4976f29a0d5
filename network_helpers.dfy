/** Wi-Fi channel numbering and the order in which scanned networks are
  * listed. */
module NetworkHelpers {
  import opened NetworkTypes
  import Sorting

  /** In one of the 2.4, 5 or 6 GHz bands the frequency table covers. */
  predicate InKnownBand(freq: int)
  {
    2412 <= freq <= 2484 || 5170 <= freq <= 5825 || 5955 <= freq <= 7115
  }

  /** Channel number of a centre frequency in MHz; 0 outside the bands. */
  function FrequencyToChannel(freq: Uint32): (ch: Uint32)
    ensures ch == 0 <==> !InKnownBand(freq)
    ensures ch <= 233
  {
    if freq >= 2412 && freq <= 2484 then
      (if freq == 2484 then 14 else (freq - 2412) / 5 + 1)
    else if freq >= 5170 && freq <= 5825 then (freq - 5170) / 5 + 34
    else if freq >= 5955 && freq <= 7115 then (freq - 5955) / 5 + 1
    else 0
  }

  /** Every channel's centre frequency maps back to that channel: 2407 + 5n
    * MHz for 2.4 GHz channels 1-13 and 2484 MHz for channel 14, 5000 + 5n
    * MHz for 5 GHz channels 34-165, and 5950 + 5n MHz for 6 GHz channels
    * 1-233. */
  lemma ChannelOfCentreFrequency(n: int)
    ensures 1 <= n <= 13 ==> FrequencyToChannel(2407 + 5 * n) == n
    ensures FrequencyToChannel(2484) == 14
    ensures 34 <= n <= 165 ==> FrequencyToChannel(5000 + 5 * n) == n
    ensures 1 <= n <= 233 ==> FrequencyToChannel(5950 + 5 * n) == n
  {
  }

  /** The comparator of the scan list: connected first, then saved, then an
    * open network with a signal of at least 50 ahead of a secured one, then
    * the stronger signal. */
  predicate Less(a: WiFiNetwork, b: WiFiNetwork)
  {
    if a.Connected && !b.Connected then true
    else if !a.Connected && b.Connected then false
    else if a.Saved && !b.Saved then true
    else if !a.Saved && b.Saved then false
    else if !a.Secured && b.Secured && a.Signal >= 50 then true
    else if a.Secured && !b.Secured && b.Signal >= 50 then false
    else a.Signal > b.Signal
  }

  /** An open network whose signal is at least 50. */
  predicate StrongOpen(n: WiFiNetwork) { !n.Secured && n.Signal >= 50 }

  /** A single number ordering networks as `Less` does: connected, saved and
    * strong-open weigh more than any signal difference. */
  function Rank(n: WiFiNetwork): (r: int)
    ensures n.Signal <= r < 2048
  {
    (if n.Connected then 1024 else 0) + (if n.Saved then 512 else 0)
    + (if StrongOpen(n) then 256 else 0) + n.Signal
  }

  /** The comparator is exactly "ranks higher". */
  lemma LessIsHigherRank(a: WiFiNetwork, b: WiFiNetwork)
    ensures Less(a, b) <==> Rank(a) > Rank(b)
  {
    if a.Connected == b.Connected && a.Saved == b.Saved {
      if !a.Secured && b.Secured && a.Signal >= 50 {
      } else if a.Secured && !b.Secured && b.Signal >= 50 {
      } else {
        assert StrongOpen(a) ==> a.Signal >= 50;
        assert StrongOpen(b) ==> b.Signal >= 50;
        assert !a.Secured && !b.Secured ==> (StrongOpen(a) && !StrongOpen(b) ==> a.Signal > b.Signal);
      }
    }
  }

  /** Hence the comparator is a strict weak order, as `sort.Slice`
    * requires. */
  lemma LessIsStrictWeakOrder()
    ensures Sorting.StrictWeakOrder(Less)
  {
    forall x, y ensures Less(x, y) ==> !Less(y, x) {
      LessIsHigherRank(x, y);
      LessIsHigherRank(y, x);
    }
    forall x, y, z ensures !Less(y, x) && !Less(z, y) ==> !Less(z, x) {
      LessIsHigherRank(y, x);
      LessIsHigherRank(z, y);
      LessIsHigherRank(z, x);
    }
  }

  /** What a list sorted by `Less` looks like from the front: connected
    * networks first; among equally connected ones saved first; among those
    * a strong open network before a secured one, and otherwise stronger
    * signal first. */
  lemma SortedNetworks(s: seq<WiFiNetwork>, p: int, q: int)
    requires Sorting.Sorted(s, Less)
    requires 0 <= p < q < |s|
    ensures s[q].Connected ==> s[p].Connected
    ensures s[p].Connected == s[q].Connected && s[q].Saved ==> s[p].Saved
    ensures s[p].Connected == s[q].Connected && s[p].Saved == s[q].Saved ==>
              !(StrongOpen(s[q]) && s[p].Secured)
    ensures (s[p].Connected == s[q].Connected && s[p].Saved == s[q].Saved
             && StrongOpen(s[p]) == StrongOpen(s[q])) ==> s[p].Signal >= s[q].Signal
  {
    assert !Less(s[q], s[p]);
    LessIsHigherRank(s[q], s[p]);
  }

  /** Sorts the scan list in place. */
  method SortWiFiNetworks(networks: array<WiFiNetwork>)
    modifies networks
    ensures multiset(networks[..]) == multiset(old(networks[..]))
    ensures Sorting.Sorted(networks[..], Less)
  {
    LessIsStrictWeakOrder();
    Sorting.SortSlice(networks, Less);
  }
}
