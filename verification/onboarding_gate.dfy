/**
 * The reverse-DNS gate of `OnBoardingHostName`: Section 1 obtains the rDNS
 * hostname list (or skips the lookup), Section 2 checks that the domain
 * being set up is in it and otherwise rolls the onboarding config back.
 *
 * The surrounding function is not modelled. Its steps between the two
 * sections, and the block Section 2 runs in, are not part of this model; the
 * gate composes the sections directly, assuming those steps leave `rDNS` as
 * Section 1 set it and always reach Section 2.
 */
module OnboardingGate {
  import ReverseDns

  /** A value of the onboarding config record, a JSON object. */
  datatype Value = VStr(s: string) | VInt(i: int) | VBool(b: bool) | VNull

  const HostnameKey := "hostname"
  const OnboardingKey := "onboarding"
  const SkipKey := "skipRDNSCheck"

  /** The onboarding stage the rollback sets. */
  const DnsPendingStage := 3

  /** What the call to the reverse-DNS lookup did. */
  datatype LookupOutcome = LookupRaised | LookupReturned(hostnames: seq<string>)

  /** Outcome of Section 1: return 0 at once, or go on with the rDNS list. */
  datatype FirstCheck = Abort | Proceed(rDNS: seq<string>)

  /**
   * Section 1. A set skip flag (any non-zero value) replaces the lookup by
   * `[CurrentHostName, Domain]`; otherwise a lookup that raises or returns
   * an empty list makes the function return 0, before any config change.
   */
  function FirstCheckpoint(skipRDNSCheck: int, currentHostName: string, domain: string,
                           lookup: LookupOutcome): (r: FirstCheck)
    ensures skipRDNSCheck != 0 ==> r == Proceed([currentHostName, domain])
    ensures skipRDNSCheck == 0 ==> (r.Abort? <==> lookup.LookupRaised? || lookup.hostnames == [])
    ensures skipRDNSCheck == 0 && r.Proceed? ==> r.rDNS == lookup.hostnames
    ensures r.Proceed? ==> r.rDNS != []
  {
    if skipRDNSCheck != 0 then Proceed([currentHostName, domain])
    else match lookup
      case LookupRaised => Abort
      case LookupReturned(hostnames) => if hostnames == [] then Abort else Proceed(hostnames)
  }

  /** Section 2 rolls back when the list is empty or lacks the domain. */
  predicate NeedsRollback(domain: string, rDNS: seq<string>)
  {
    rDNS == [] || domain !in rDNS
  }

  /**
   * The config after the rollback: the hostname becomes the domain, the
   * stage goes back to 3, the skip flag is kept, and nothing else changes.
   */
  function RolledBack(config: map<string, Value>, domain: string, skipRDNSCheck: int): (r: map<string, Value>)
    ensures r.Keys == config.Keys + {HostnameKey, OnboardingKey, SkipKey}
    ensures r[HostnameKey] == VStr(domain)
    ensures r[OnboardingKey] == VInt(DnsPendingStage)
    ensures r[SkipKey] == VInt(skipRDNSCheck)
    ensures forall k :: k in config && k != HostnameKey && k != OnboardingKey && k != SkipKey ==> r[k] == config[k]
  {
    config[HostnameKey := VStr(domain)][OnboardingKey := VInt(DnsPendingStage)][SkipKey := VInt(skipRDNSCheck)]
  }

  /** The verdict of the whole gate. */
  datatype Verdict = ReturnedZero | Passed

  /**
   * The admin record the gate works on: the decoded `config` dictionary, the
   * config text last stored on the record, and whether `save()` was called.
   */
  class OnboardingRecord {
    var config: map<string, Value>
    var stored: map<string, Value>
    var saved: bool

    constructor (config: map<string, Value>)
      ensures this.config == config && stored == config && !saved
    {
      this.config := config;
      this.stored := config;
      this.saved := false;
    }

    /** The three key writes, then `admin.config = json.dumps(config)` and `admin.save()`. */
    method Rollback(domain: string, skipRDNSCheck: int)
      modifies this
      ensures config == RolledBack(old(config), domain, skipRDNSCheck)
      ensures stored == config && saved
    {
      config := config[HostnameKey := VStr(domain)];
      config := config[OnboardingKey := VInt(DnsPendingStage)];
      config := config[SkipKey := VInt(skipRDNSCheck)];
      stored := config;
      saved := true;
    }

    /**
     * Section 2: an empty list, or a list without the domain, rolls back,
     * saves and returns 0; otherwise nothing is touched.
     */
    method SecondCheckpoint(domain: string, skipRDNSCheck: int, rDNS: seq<string>) returns (verdict: Verdict)
      modifies this
      ensures verdict == ReturnedZero <==> NeedsRollback(domain, rDNS)
      ensures verdict == ReturnedZero ==>
                config == RolledBack(old(config), domain, skipRDNSCheck) && stored == config && saved
      ensures verdict == Passed ==> config == old(config) && stored == old(stored) && saved == old(saved)
    {
      if rDNS == [] {
        Rollback(domain, skipRDNSCheck);
        return ReturnedZero;
      }
      if domain !in rDNS {
        Rollback(domain, skipRDNSCheck);
        return ReturnedZero;
      }
      return Passed;
    }

    /** Section 1 followed by Section 2. */
    method RdnsGate(skipRDNSCheck: int, currentHostName: string, domain: string, lookup: LookupOutcome)
      returns (verdict: Verdict)
      modifies this
      ensures skipRDNSCheck != 0 ==> verdict == Passed
      ensures FirstCheckpoint(skipRDNSCheck, currentHostName, domain, lookup).Abort? ==> verdict == ReturnedZero
      ensures verdict == Passed || FirstCheckpoint(skipRDNSCheck, currentHostName, domain, lookup).Abort? ==>
                config == old(config) && stored == old(stored) && saved == old(saved)
      ensures skipRDNSCheck == 0 && lookup.LookupReturned? && lookup.hostnames != [] ==>
                (verdict == ReturnedZero <==> domain !in lookup.hostnames)
      ensures verdict == ReturnedZero && FirstCheckpoint(skipRDNSCheck, currentHostName, domain, lookup).Proceed? ==>
                config == RolledBack(old(config), domain, skipRDNSCheck) && stored == config && saved
    {
      var first := FirstCheckpoint(skipRDNSCheck, currentHostName, domain, lookup);
      if first.Abort? {
        return ReturnedZero;
      }
      verdict := SecondCheckpoint(domain, skipRDNSCheck, first.rDNS);
    }
  }

  /** With the skip flag set the domain is always in the list: Section 2 passes. */
  lemma SkipPathPasses(skipRDNSCheck: int, currentHostName: string, domain: string, lookup: LookupOutcome)
    requires skipRDNSCheck != 0
    ensures var first := FirstCheckpoint(skipRDNSCheck, currentHostName, domain, lookup);
            first.Proceed? && !NeedsRollback(domain, first.rDNS)
  {
  }

  /**
   * Under the direct composition of the two sections, Section 2's empty-list
   * test never fires after Section 1: only the membership test can roll back.
   */
  lemma EmptyListCaughtBySectionOne(skipRDNSCheck: int, currentHostName: string, domain: string,
                                    lookup: LookupOutcome)
    ensures var first := FirstCheckpoint(skipRDNSCheck, currentHostName, domain, lookup);
            first.Proceed? ==> (NeedsRollback(domain, first.rDNS) <==> domain !in first.rDNS)
  {
  }

  /**
   * Fed with the modelled lookup and no skip flag, the gate passes exactly
   * when the domain is non-empty and some relay's successful reply lists it.
   */
  lemma GatePassesExactlyWhenARelayOffersDomain(fetch: ReverseDns.ListFetch, ip: string,
                                               network: ReverseDns.Network,
                                               currentHostName: string, domain: string)
    ensures var lookup := LookupReturned(ReverseDns.Lookup(fetch, ip, network));
            var first := FirstCheckpoint(0, currentHostName, domain, lookup);
            (first.Proceed? && !NeedsRollback(domain, first.rDNS)) <==>
            (domain != "" && ReverseDns.SomeRelayOffers(fetch, ip, network, domain))
  {
    ReverseDns.LookupSoundAndComplete(fetch, ip, network, domain);
  }

  /** Without a successful relay query, Section 1 aborts the onboarding. */
  lemma NoSuccessfulQueryAborts(fetch: ReverseDns.ListFetch, ip: string,
                                network: ReverseDns.Network,
                                currentHostName: string, domain: string)
    requires ReverseDns.SuccessfulQueries(fetch, ip, network) == 0
    ensures FirstCheckpoint(0, currentHostName, domain, LookupReturned(ReverseDns.Lookup(fetch, ip, network))) == Abort
  {
    ReverseDns.LookupEmptyWithoutSuccess(fetch, ip, network);
  }
}
