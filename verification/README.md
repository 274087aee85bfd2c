# Hosting control panel remediation fragments, modelled in Dafny

The repository holds three fixes for a web hosting control panel:

- **Reverse-DNS lookup** (`rdns/mailUtilities_fixed.py`, `reverse_dns_lookup`).
  It fetches a list of relay URLs. It then asks every relay for the PTR names
  of the server IP. It collects the non-empty hostnames stored under the resolver keys
  `8.8.8.8`, `1.1.1.1` and `9.9.9.9` into a list without duplicates, in
  first-seen order. It also counts the successful queries. Every failure
  degrades to "this relay adds nothing", or to the result `[]`.
- **Onboarding rDNS gate** (`rdns/virtualHostUtilities_fixed.py`).
  Section 1 gets the hostname list, or seeds it with `[CurrentHostName, Domain]`
  when the skip flag is set. Section 2 requires the domain to be in the list.
  If it is not, the gate rolls the onboarding config back
  (`hostname`, `onboarding := 3`, `skipRDNSCheck`), saves it and returns 0.
- **AlmaLinux 9 installer patch** (`os-specific/installCyberPanel_almalinux9_patch.py`).
  Two detectors pick the first MariaDB client command or service name that a
  system probe accepts, and fall back to a constant otherwise. The patcher
  rewrites the installer text with three replace-if-present patches. It then
  inserts a helper block before the installer class. It returns `False` only
  when the file is missing.

Files:

- `options.dfy`: the `Option` datatype.
- `py_text.dfy` (module `PyText`): the Python `str` operations the patcher uses.
  These are `find`, `in`, `split`, `join` and `replace`. `replace` is
  defined as `new.join(s.split(old))`, which is what it computes for a non-empty `old`.
- `reverse_dns.dfy` (module `ReverseDns`): replies as datatypes, the lookup as a
  specification function (`Lookup`), and the loop as a method proved equal to it.
- `installer_patch.dfy` (module `InstallerPatch`): the detectors over probe
  oracles, the patch steps and the patcher method.
- `onboarding_gate.dfy` (module `OnboardingGate`): the gate decisions as
  functions, and the config record as a class whose methods perform the rollback.

The network, `which`/`systemctl` and the installer file are parameters.
- A relay list is a `ListFetch`.
- The relays are a `Network`: the `RelayReply` to the i-th request of the relay loop, sent to a given URL, so a relay listed twice may answer differently each time.
- A probe is a function from a name to its result.
- The file is an existence flag plus its text.

Each patch fragment and the helper block are string constants, with the exact
text of the source.

## Model

| member | source | states |
|---|---|---|
| `PyText.Find` | os-specific/installCyberPanel_almalinux9_patch.py:158 | `find` gives an index where the pattern occurs, and no earlier index holds an occurrence; `None` (Python's -1) means there is no occurrence at all |
| `PyText.Split` | os-specific/installCyberPanel_almalinux9_patch.py:75 | the pieces between the leftmost non-overlapping occurrences of the separator: at least one piece, exactly one piece when the separator is absent, no piece contains the separator, and every piece but the last is followed by the first occurrence of the separator in what remains |
| `PyText.SplitLeftmostExample` | os-specific/installCyberPanel_almalinux9_patch.py:75 | with overlapping candidates the cut is taken at the leftmost one: `"aaa".split("aa")` is `["", "a"]` |
| `PyText.SplitJoinRoundTrip` | os-specific/installCyberPanel_almalinux9_patch.py:75 | gluing the pieces of a split back with the same separator gives the original text |
| `PyText.ReplaceAll` | os-specific/installCyberPanel_almalinux9_patch.py:74-78 | `str.replace` leaves a text that does not contain the fragment unchanged |
| `PyText.ReplaceAllLength` | os-specific/installCyberPanel_almalinux9_patch.py:75 | each replaced occurrence changes the length by `len(new) - len(old)`; a present fragment is replaced at least once |
| `ReverseDns.RelayUrls` | rdns/mailUtilities_fixed.py:23-48 | relays are queried only for an HTTP 200 response that decodes to an object whose `urls` is a non-empty list; every other list outcome gives up |
| `ReverseDns.SuccessCount` | rdns/mailUtilities_fixed.py:54-96 | the number of successful queries never exceeds the number of relays |
| `ReverseDns.ReverseDnsLookup` | rdns/mailUtilities_fixed.py:18-126 | an unusable relay list gives `[]`, zero successes and no request. Otherwise every relay is requested once, in order. The returned list equals the specification `Lookup` and has no duplicates. The success counter equals the number of successful replies, so it is at most the number of relays |
| `ReverseDns.MergeReply` | rdns/mailUtilities_fixed.py:58-120 | one relay step: only an HTTP 200 reply that is an object with `status == 1` and an object `results` counts as a success. Only such a reply contributes hostnames. Every other reply leaves the list unchanged |
| `ReverseDns.MergeEntries` | rdns/mailUtilities_fixed.py:86-94 | the inner loop appends the values under the three resolver keys, in key order, keeping only non-empty ones not already present |
| `ReverseDns.DedupNoDuplicates` | rdns/mailUtilities_fixed.py:93-94 | the hostname list never holds a value twice |
| `ReverseDns.DedupMembership` | rdns/mailUtilities_fixed.py:93-94 | a value is in the list exactly when it is non-empty and was offered |
| `ReverseDns.DedupFirstSeenOrder` | rdns/mailUtilities_fixed.py:57 | hostnames are listed in the order of their first occurrence across relays, then keys |
| `ReverseDns.DedupPrefix` | rdns/mailUtilities_fixed.py:93-94 | the list is append-only: what earlier values produced is a prefix of the final list |
| `ReverseDns.AggregateAppendOnly` | rdns/mailUtilities_fixed.py:53-57 | the result for the first n relays is a prefix of the result for all relays |
| `ReverseDns.FailingRelayIgnored` | rdns/mailUtilities_fixed.py:97-120 | a relay that is not a successful query adds neither hostnames nor a success. Removing it does not change what the later relays contribute |
| `ReverseDns.NoSuccessNoHostnames` | rdns/mailUtilities_fixed.py:125-126 | with no successful query the result is empty |
| `ReverseDns.AggregateSoundAndComplete` | rdns/mailUtilities_fixed.py:72-94 | a hostname is returned exactly when it is non-empty and some successful reply stores it under `8.8.8.8`, `1.1.1.1` or `9.9.9.9` |
| `ReverseDns.WorkedExample` | rdns/mailUtilities_fixed.py:89-94 | one relay answering `a.com`, `a.com`, `b.com` for the three keys yields `[a.com, b.com]` |
| `ReverseDns.LookupSoundAndComplete` | rdns/mailUtilities_fixed.py:32-94 | soundness and completeness of the whole lookup, including the relay-list checks |
| `ReverseDns.LookupEmptyWithoutSuccess` | rdns/mailUtilities_fixed.py:125 | a lookup without a successful query returns `[]` |
| `ReverseDns.RepeatedRelayQueriedIndependently` | rdns/mailUtilities_fixed.py:57-59 | a relay listed twice gets two independent requests: a timeout then a success count as one successful query |
| `InstallerPatch.FirstHit` | os-specific/installCyberPanel_almalinux9_patch.py:16-23 | the index found is the first candidate accepted by the probe; `None` means no candidate is accepted |
| `InstallerPatch.FindMariadbCommand` | os-specific/installCyberPanel_almalinux9_patch.py:8-26 | returns the resolved path of the first of `mariadb`, `mysql`, `/usr/bin/mariadb`, `/usr/bin/mysql` that `which` resolves to an existing path; returns `mysql` when none does |
| `InstallerPatch.FindMariadbService` | os-specific/installCyberPanel_almalinux9_patch.py:28-47 | returns the first of `mariadb`, `mysqld`, `mysql` whose unit listing succeeds and contains `name.service`, else `mariadb`; always one of the three |
| `InstallerPatch.InsertBeforeAnchor` | os-specific/installCyberPanel_almalinux9_patch.py:158-163 | without the anchor the text is unchanged; with it the text grows by exactly the block's length |
| `InstallerPatch.FragmentLengths` | os-specific/installCyberPanel_almalinux9_patch.py:64-104 | the old fragments are non-empty and each new fragment is at least as long as the old one |
| `InstallerPatch.ApplyReplacement` | os-specific/installCyberPanel_almalinux9_patch.py:74-78 | a patch step reports whether its fragment is present. It leaves the text unchanged when the fragment is absent. Its result is `replace` either way |
| `InstallerPatch.PatchInstallCyberPanel` | os-specific/installCyberPanel_almalinux9_patch.py:49-170 | returns `False` exactly when the file is missing, and then writes nothing. Otherwise it returns `True` and writes patches 1, 2, 3 and 4 composed in that order, whatever each patch found. It reports each patch's found / not-found outcome |
| `InstallerPatch.ReplacementPatch` | os-specific/installCyberPanel_almalinux9_patch.py:74-104 | patches 1-3 cut the text at every occurrence of the old fragment into pieces free of it. The pieces glue back to the original with the old fragment, and the result glues them with the new one. An absent fragment leaves the text unchanged |
| `InstallerPatch.HelperInsertedBeforeAnchor` | os-specific/installCyberPanel_almalinux9_patch.py:158-160 | patch 4 yields `content[:i] + helper + content[i:]`. The text from the anchor on is unchanged, and the anchor is still present |
| `InstallerPatch.InsertionRepeatsOnRerun` | os-specific/installCyberPanel_almalinux9_patch.py:158-160 | a second run of patch 4 inserts the block again, so patch 4 is not idempotent |
| `InstallerPatch.ReplacementsNeverShrink` | os-specific/installCyberPanel_almalinux9_patch.py:74-104 | patches 1-3 never make the text shorter |
| `InstallerPatch.ReplacementNeverShrinks` | os-specific/installCyberPanel_almalinux9_patch.py:75 | a replacement by a fragment at least as long never shortens the text |
| `InstallerPatch.PatcherNotIdempotent` | os-specific/installCyberPanel_almalinux9_patch.py:158-167 | if a rerun still finds the anchor after patches 1-3, it writes a strictly longer text: the patcher is not idempotent |
| `OnboardingGate.FirstCheckpoint` | rdns/virtualHostUtilities_fixed.py:11-29 | the skip flag gives `[CurrentHostName, Domain]` without a lookup. Otherwise an exception or an empty result aborts. A list that goes on to Section 2 is never empty |
| `OnboardingGate.RolledBack` | rdns/virtualHostUtilities_fixed.py:43-45 | the rollback sets `hostname` to the domain, `onboarding` to 3 and `skipRDNSCheck` to the flag, and leaves every other key as it was |
| `OnboardingGate.OnboardingRecord.Rollback` | rdns/virtualHostUtilities_fixed.py:43-47 | the record's config becomes the rolled-back config and is stored and saved |
| `OnboardingGate.OnboardingRecord.SecondCheckpoint` | rdns/virtualHostUtilities_fixed.py:38-61 | an empty list, or a domain not in the list, causes rollback, save and return 0. Otherwise the config and the saved state are untouched |
| `OnboardingGate.OnboardingRecord.RdnsGate` | rdns/virtualHostUtilities_fixed.py:11-61 | the skip path always passes. A Section 1 abort changes nothing. Past Section 1, the gate returns 0 exactly when the domain is not in the list, after rolling the config back |
| `OnboardingGate.SkipPathPasses` | rdns/virtualHostUtilities_fixed.py:12-15 | with the skip flag set, the domain is in the seeded list, so Section 2 passes |
| `OnboardingGate.EmptyListCaughtBySectionOne` | rdns/virtualHostUtilities_fixed.py:38 | when Section 2 sees the list Section 1 produced, it is never empty, so only the membership test can roll back |
| `OnboardingGate.GatePassesExactlyWhenARelayOffersDomain` | rdns/virtualHostUtilities_fixed.py:17-24 | with the modelled lookup and no skip flag, the gate passes exactly when some relay's successful reply lists the (non-empty) domain |
| `OnboardingGate.NoSuccessfulQueryAborts` | rdns/virtualHostUtilities_fixed.py:18-24 | when no relay query succeeds, Section 1 aborts onboarding |

## Left out

- HTTP transport, timeouts and JSON decoding are not modelled. Each outcome the source distinguishes is a constructor of `ListFetch`, `ListBody`, `RelayReply`, `ReplyBody` or `ResultsField`.
- The exception classes are not modelled separately. They only decide which log line is written, and all of them lead to the same outcome.
- Logging, `print`, the debug-marker check, the status writer and the message texts (including the `[404]` tag) are not modelled. They do not affect results.
- Relay `results` values are strings; `""` stands for every falsy JSON value. Truthy non-string values (numbers, lists, objects) are not represented.
- A `status` value is an integer. The test `data['status'] == 1` is also true for JSON `true` and `1.0`, so those are modelled as status 1. Every other non-integer status is modelled as an integer other than 1.
- A failed `import requests` (rdns/mailUtilities_fixed.py:128-130) is not modelled; in the source it returns `[]`.
- A `BaseException` that is not an `Exception` (for example an interrupt) raised mid-loop is not modelled. In the source it is caught by the outer handler (rdns/mailUtilities_fixed.py:131-133), which makes the lookup return `[]`.
- `subprocess.run`, `which`, `systemctl` and the `os.path.exists` check on the `which` output are not modelled. They are the oracle parameters of the detectors; a probe that raises (the bare `except: continue`) is a probe that answers `None`.
- The `__main__` driver and the patcher's progress messages are not modelled.
- File I/O and the fixed installer path are not modelled. The file is an existence flag and a string, and the written text is an output value.
- Concurrent runs against the same file are not modelled.
- The other steps of `OnBoardingHostName` between Section 1 and Section 2, and the enclosing block Section 2 runs in (it is indented one level deeper than Section 1), are not modelled. The gate composes the two sections directly. It assumes that those steps leave `rDNS` as Section 1 set it and always reach Section 2. `EmptyListCaughtBySectionOne` holds only under this assumption.
- `serverIP` and `tempStatusPath` are not modelled.
- `json.dumps` is not modelled; the stored config is the map itself.
- `PatcherNotIdempotent`: proves whole-patcher non-idempotence only for reruns where the anchor survives patches 1-3. Proving that the anchor always survives would take character-level reasoning about the fixed fragments.
