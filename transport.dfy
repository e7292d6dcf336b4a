/**
 * The provider keyword table and `get_transport_info`: the operator provider of
 * a listing is mapped to a transport corporation and its state by the first
 * keyword, in table order, that occurs in it, ignoring case.
 */
module Transport {
  import opened Text

  datatype Entry = Entry(keyword: string, corporation: string, state: string)

  /** `transport_mapping`, in its insertion order (the order `.items()` scans). */
  const TransportMapping: seq<Entry> := [
    Entry("Kerala RTC Online Ticket Booking", "KSRTC", "Kerala"),
    Entry("APSRTC", "APSRTC", "Andhra Pradesh"),
    Entry("TSRTC Online Bus Ticket Booking", "TGSRTC", "Telangana"),
    Entry("Kadamba Transport Corporation Limited", "KTCL", "Goa"),
    Entry("RSRTC", "RSRTC", "Rajasthan"),
    Entry("South Bengal State Transport Corporation", "SBSTC", "West Bengal"),
    Entry("HRTC", "HRTC", "Himachal Pradesh"),
    Entry("Assam State Transport Corporation", "ASTC", "Assam"),
    Entry("Uttar Pradesh State Road Transport Corporation", "UPSRTC", "Uttar Pradesh"),
    Entry("WBTC (CTC)", "WBTC", "West Bengal")
  ]

  /** `keyword.lower() in provider.lower()`. */
  predicate Matches(e: Entry, provider: string)
  {
    Contains(Lower(provider), Lower(e.keyword))
  }

  /** The (corporation, state) pair chosen from `entries` for `provider`; `("", "")` when none matches. */
  function Lookup(entries: seq<Entry>, provider: string): (string, string)
  {
    if entries == [] then ("", "")
    else if Matches(entries[0], provider) then (entries[0].corporation, entries[0].state)
    else Lookup(entries[1..], provider)
  }

  /** What the dashboard assigns to a provider label. */
  function TransportInfo(provider: string): (string, string)
  {
    Lookup(TransportMapping, provider)
  }

  /** `entries[i]` is the first entry whose keyword occurs in `provider`. */
  ghost predicate FirstMatch(entries: seq<Entry>, provider: string, i: int)
  {
    0 <= i < |entries| && Matches(entries[i], provider) &&
    forall j :: 0 <= j < i ==> !Matches(entries[j], provider)
  }

  /** The lookup yields the pair of the first matching entry. */
  lemma {:induction false} LookupFirstMatch(entries: seq<Entry>, provider: string, i: int)
    requires FirstMatch(entries, provider, i)
    ensures Lookup(entries, provider) == (entries[i].corporation, entries[i].state)
  {
    if i > 0 {
      assert !Matches(entries[0], provider);
      assert FirstMatch(entries[1..], provider, i - 1) by {
        forall j | 0 <= j < i - 1 ensures !Matches(entries[1..][j], provider) {
          assert entries[1..][j] == entries[j + 1];
        }
      }
      LookupFirstMatch(entries[1..], provider, i - 1);
    }
  }

  /** The lookup yields `("", "")` when no keyword occurs in the provider. */
  lemma {:induction false} LookupNoMatch(entries: seq<Entry>, provider: string)
    requires forall j :: 0 <= j < |entries| ==> !Matches(entries[j], provider)
    ensures Lookup(entries, provider) == ("", "")
  {
    if entries != [] {
      assert forall j :: 0 <= j < |entries[1..]| ==> entries[1..][j] == entries[j + 1];
      LookupNoMatch(entries[1..], provider);
    }
  }

  /** Either no keyword occurs and the pair is empty, or the pair is that of the first keyword that does. */
  lemma {:induction false} LookupCases(entries: seq<Entry>, provider: string)
    ensures (Lookup(entries, provider) == ("", "") && forall j :: 0 <= j < |entries| ==> !Matches(entries[j], provider)) ||
            exists i :: FirstMatch(entries, provider, i) && Lookup(entries, provider) == (entries[i].corporation, entries[i].state)
  {
    if entries != [] {
      if Matches(entries[0], provider) {
        assert FirstMatch(entries, provider, 0);
      } else {
        LookupCases(entries[1..], provider);
        if i :| FirstMatch(entries[1..], provider, i) && Lookup(entries[1..], provider) == (entries[1..][i].corporation, entries[1..][i].state) {
          assert FirstMatch(entries, provider, i + 1) by {
            forall j | 0 <= j < i + 1 ensures !Matches(entries[j], provider) {
              if j > 0 { assert entries[j] == entries[1..][j - 1]; }
            }
          }
        } else {
          forall j | 0 <= j < |entries| ensures !Matches(entries[j], provider) {
            if j > 0 { assert entries[j] == entries[1..][j - 1]; }
          }
        }
      }
    }
  }

  /** The scan of `get_transport_info` over a keyword table: a `for` loop with an early return. */
  method Scan(entries: seq<Entry>, provider: string) returns (corp: string, state: string)
    ensures (corp, state) == Lookup(entries, provider)
    ensures forall i :: FirstMatch(entries, provider, i) ==>
              corp == entries[i].corporation && state == entries[i].state
    ensures (forall j :: 0 <= j < |entries| ==> !Matches(entries[j], provider)) ==>
              corp == "" && state == ""
  {
    var text := Lower(provider);
    for i := 0 to |entries|
      invariant forall j :: 0 <= j < i ==> !Matches(entries[j], provider)
    {
      var entry := entries[i];
      if Contains(text, Lower(entry.keyword)) {
        assert FirstMatch(entries, provider, i);
        LookupFirstMatch(entries, provider, i);
        return entry.corporation, entry.state;
      }
    }
    LookupNoMatch(entries, provider);
    return "", "";
  }

  /**
   * `get_transport_info`: the scan over `transport_mapping`. Every
   * corporation in the table is non-empty, so the empty pair comes back
   * exactly when no keyword matches.
   */
  method GetTransportInfo(provider: string) returns (corp: string, state: string)
    ensures (corp, state) == TransportInfo(provider)
    ensures forall i :: FirstMatch(TransportMapping, provider, i) ==>
              corp == TransportMapping[i].corporation && state == TransportMapping[i].state
    ensures corp == "" && state == "" <==>
              forall j :: 0 <= j < |TransportMapping| ==> !Matches(TransportMapping[j], provider)
  {
    corp, state := Scan(TransportMapping, provider);
    LookupCases(TransportMapping, provider);
    assert forall i :: 0 <= i < |TransportMapping| ==> TransportMapping[i].corporation != "";
  }
}
