/**
 * Reverse-DNS lookup through a list of HTTP relays (`reverse_dns_lookup`).
 *
 * The network is a parameter. The relay-list fetch is a `ListFetch` value;
 * the relay queries are a `Network`: the reply to the request with a given
 * position in the relay loop and a given URL.
 * Every failure the source catches is a constructor of these datatypes, so
 * the lookup is total: failures contribute nothing, or give `[]`.
 */
module ReverseDns {
  import opened Options

  /** Body of the relay-list response, after JSON decoding was attempted. */
  datatype ListBody =
    | ListUnparsable               // decoding raised ValueError
    | ListNotObject                // not a JSON object: the "urls" check or lookup raises
    | ListNoUrls                   // an object without a "urls" key
    | ListUrlsNotList              // "urls" is there but is not a list
    | ListUrls(urls: seq<string>)  // "urls" is a list of relay base URLs

  /** Outcome of the request for the relay list. */
  datatype ListFetch =
    | ListRequestFailed            // ConnectionError, Timeout or another RequestException
    | ListResponse(statusCode: int, body: ListBody)

  /** The "results" field of a relay reply. */
  datatype ResultsField =
    | ResultsMissing
    | ResultsNotObject
    | ResultsObject(entries: map<string, string>)  // resolver IP to hostname; "" for any falsy value

  /** Body of a relay reply, after JSON decoding was attempted. */
  datatype ReplyBody =
    | ReplyUnparsable              // decoding raised ValueError
    | ReplyNotObject
    | ReplyNoStatus
    | ReplyStatus(status: int, results: ResultsField)

  /** Outcome of one relay query. */
  datatype RelayReply =
    | RelayRequestFailed           // Timeout, ConnectionError, RequestException or any other Exception
    | RelayResponse(statusCode: int, body: ReplyBody)

  /**
   * The relays' answers: `network(i, url)` is the reply to the `i`-th request
   * of the relay loop, sent to `url`. Two requests to the same URL are
   * independent and may be answered differently.
   */
  type Network = (nat, string) -> RelayReply

  /** The resolver keys read from every successful reply, in this order. */
  const ResolverKeys: seq<string> := ["8.8.8.8", "1.1.1.1", "9.9.9.9"]
  const HttpOk := 200
  const StatusSuccess := 1

  /**
   * Validation of the relay list: the base URLs to query, or `None` when the
   * lookup must give up with `[]`.
   */
  function RelayUrls(fetch: ListFetch): (r: Option<seq<string>>)
    ensures r.Some? ==> r.value != [] && fetch == ListResponse(HttpOk, ListUrls(r.value))
    ensures fetch.ListResponse? && fetch.statusCode == HttpOk && fetch.body.ListUrls? && fetch.body.urls != []
            ==> r.Some?
  {
    match fetch
    case ListRequestFailed => None
    case ListResponse(code, body) =>
      if code != HttpOk then None
      else match body
        case ListUrls(urls) => if urls == [] then None else Some(urls)
        case _ => None
  }

  /** The URL queried for relay `relay` and address `ip`. */
  function RequestUrl(relay: string, ip: string): string
  {
    relay + "/index.php?ip=" + ip
  }

  /** The requests the lookup issues, one per relay, in relay order. */
  function Requests(urls: seq<string>, ip: string): seq<string>
  {
    seq(|urls|, i requires 0 <= i < |urls| => RequestUrl(urls[i], ip))
  }

  /** The replies the network gives to those requests. */
  function Replies(urls: seq<string>, ip: string, network: Network): seq<RelayReply>
  {
    seq(|urls|, i requires 0 <= i < |urls| => network(i, RequestUrl(urls[i], ip)))
  }

  /**
   * The resolver map of a reply that counts as a successful query: HTTP 200,
   * a JSON object whose status is 1 and whose "results" is an object.
   */
  function SuccessfulResults(reply: RelayReply): Option<map<string, string>>
  {
    match reply
    case RelayRequestFailed => None
    case RelayResponse(code, body) =>
      if code != HttpOk then None
      else match body
        case ReplyStatus(status, field) =>
          if status == StatusSuccess && field.ResultsObject? then Some(field.entries) else None
        case _ => None
  }

  /** The values stored under `keys` in `entries`, in key order ("" included). */
  function Offered(entries: map<string, string>, keys: seq<string>): seq<string>
  {
    if keys == [] then []
    else
      var key := keys[|keys| - 1];
      Offered(entries, keys[..|keys| - 1]) + (if key in entries then [entries[key]] else [])
  }

  /** The hostname values one reply offers; nothing unless it is successful. */
  function ReplyHostnames(reply: RelayReply): seq<string>
  {
    match SuccessfulResults(reply)
    case None => []
    case Some(entries) => Offered(entries, ResolverKeys)
  }

  /** Every hostname value the replies offer, relay by relay. */
  function Candidates(replies: seq<RelayReply>): seq<string>
  {
    if replies == [] then []
    else Candidates(replies[..|replies| - 1]) + ReplyHostnames(replies[|replies| - 1])
  }

  /** Appends `v` when it is non-empty and not yet in `acc`. */
  function AddIfNew(acc: seq<string>, v: string): seq<string>
  {
    if v != "" && v !in acc then acc + [v] else acc
  }

  /** Appends the values of `s` one by one with `AddIfNew`. */
  function Dedup(s: seq<string>): seq<string>
  {
    if s == [] then [] else AddIfNew(Dedup(s[..|s| - 1]), s[|s| - 1])
  }

  /** The hostname list built from the replies. */
  function Aggregate(replies: seq<RelayReply>): seq<string>
  {
    Dedup(Candidates(replies))
  }

  /** The number of replies that count as successful queries. */
  function SuccessCount(replies: seq<RelayReply>): (n: nat)
    ensures n <= |replies|
  {
    if replies == [] then 0
    else
      SuccessCount(replies[..|replies| - 1])
      + (if SuccessfulResults(replies[|replies| - 1]).Some? then 1 else 0)
  }

  /** The whole lookup as a value: `[]` when the relay list is unusable. */
  function Lookup(fetch: ListFetch, ip: string, network: Network): seq<string>
  {
    match RelayUrls(fetch)
    case None => []
    case Some(urls) => Aggregate(Replies(urls, ip, network))
  }

  /** The number of successful queries of the whole lookup. */
  function SuccessfulQueries(fetch: ListFetch, ip: string, network: Network): nat
  {
    match RelayUrls(fetch)
    case None => 0
    case Some(urls) => SuccessCount(Replies(urls, ip, network))
  }

  predicate NoDuplicates(s: seq<string>)
  {
    forall i, j :: 0 <= i < j < |s| ==> s[i] != s[j]
  }

  // ---------------------------------------------------------------------
  // The lookup, step by step
  // ---------------------------------------------------------------------

  /**
   * `reverse_dns_lookup(ip)`. Besides the hostnames it returns the number
   * of successful queries and the request URLs it issued, in order.
   */
  method ReverseDnsLookup(fetch: ListFetch, ip: string, network: Network)
    returns (results: seq<string>, successfulQueries: nat, queried: seq<string>)
    ensures RelayUrls(fetch).None? ==> results == [] && successfulQueries == 0 && queried == []
    ensures RelayUrls(fetch).Some? ==>
              var urls := RelayUrls(fetch).value;
              && queried == Requests(urls, ip)
              && results == Aggregate(Replies(urls, ip, network))
              && successfulQueries == SuccessCount(Replies(urls, ip, network))
    ensures results == Lookup(fetch, ip, network)
    ensures successfulQueries == SuccessfulQueries(fetch, ip, network)
    ensures NoDuplicates(results)
    ensures successfulQueries <= |queried|
  {
    results, successfulQueries, queried := [], 0, [];
    var relayList := RelayUrls(fetch);
    if relayList.None? {
      return;
    }
    var urls := relayList.value;
    ghost var replies := Replies(urls, ip, network);
    for i := 0 to |urls|
      invariant |queried| == i
      invariant forall j :: 0 <= j < i ==> queried[j] == RequestUrl(urls[j], ip)
      invariant results == Aggregate(replies[..i])
      invariant successfulQueries == SuccessCount(replies[..i])
    {
      var request := RequestUrl(urls[i], ip);
      queried := queried + [request];
      var reply := network(i, request);
      assert replies[..i + 1][..i] == replies[..i];
      var succeeded;
      results, succeeded := MergeReply(results, reply, Candidates(replies[..i]));
      if succeeded {
        successfulQueries := successfulQueries + 1;
      }
    }
    assert replies[..|urls|] == replies;
    DedupNoDuplicates(Candidates(replies));
  }

  /**
   * The body of the relay loop: checks the shape of one reply and, for a
   * successful query, appends its new hostnames. `seen` is the ghost list of
   * every value offered so far.
   */
  method MergeReply(results: seq<string>, reply: RelayReply, ghost seen: seq<string>)
    returns (merged: seq<string>, succeeded: bool)
    requires results == Dedup(seen)
    ensures merged == Dedup(seen + ReplyHostnames(reply))
    ensures succeeded <==> SuccessfulResults(reply).Some?
  {
    merged, succeeded := results, false;
    assert seen + [] == seen;
    if reply.RelayResponse? && reply.statusCode == HttpOk {
      match reply.body {
        case ReplyStatus(status, field) =>
          if status == StatusSuccess {
            if field.ResultsObject? {
              merged := MergeEntries(results, field.entries, seen);
              succeeded := true;
            }
          }
        case _ =>
      }
    }
  }

  /** The loop over the three resolver keys of one successful reply. */
  method MergeEntries(results: seq<string>, entries: map<string, string>, ghost seen: seq<string>)
    returns (merged: seq<string>)
    requires results == Dedup(seen)
    ensures merged == Dedup(seen + Offered(entries, ResolverKeys))
  {
    merged := results;
    assert seen + Offered(entries, ResolverKeys[..0]) == seen;
    for k := 0 to |ResolverKeys|
      invariant merged == Dedup(seen + Offered(entries, ResolverKeys[..k]))
    {
      var key := ResolverKeys[k];
      assert ResolverKeys[..k + 1][..k] == ResolverKeys[..k];
      ghost var sofar := seen + Offered(entries, ResolverKeys[..k]);
      if key in entries {
        var value := entries[key];
        assert (sofar + [value])[..|sofar|] == sofar;
        assert seen + Offered(entries, ResolverKeys[..k + 1]) == sofar + [value];
        if value != "" && value !in merged {
          merged := merged + [value];
        }
      } else {
        assert seen + Offered(entries, ResolverKeys[..k + 1]) == sofar;
      }
    }
    assert ResolverKeys[..|ResolverKeys|] == ResolverKeys;
  }

  // ---------------------------------------------------------------------
  // What the hostname list is: deduplicated, in first-seen order
  // ---------------------------------------------------------------------

  /** No hostname appears twice. */
  lemma {:induction false} DedupNoDuplicates(s: seq<string>)
    ensures NoDuplicates(Dedup(s))
    decreases |s|
  {
    if s != [] {
      DedupNoDuplicates(s[..|s| - 1]);
    }
  }

  /** A value is kept exactly when it is non-empty and occurs in the input. */
  lemma {:induction false} DedupMembership(s: seq<string>, x: string)
    ensures x in Dedup(s) <==> x in s && x != ""
    decreases |s|
  {
    if s != [] {
      var init := s[..|s| - 1];
      DedupMembership(init, x);
      assert s == init + [s[|s| - 1]];
    }
  }

  /** The index of the first occurrence of `x` in `s`. */
  function FirstIndex(s: seq<string>, x: string): (r: nat)
    requires x in s
    ensures r < |s| && s[r] == x && x !in s[..r]
  {
    if s[0] == x then 0
    else
      var r := 1 + FirstIndex(s[1..], x);
      assert s[..r] == [s[0]] + s[1..][..r - 1];
      r
  }

  lemma FirstIndexUnique(s: seq<string>, x: string, r: nat)
    requires r < |s| && s[r] == x && x !in s[..r]
    ensures FirstIndex(s, x) == r
  {
    var f := FirstIndex(s, x);
    forall k | 0 <= k < r ensures s[k] != x {
      assert s[..r][k] == s[k];
    }
    forall k | 0 <= k < f ensures s[k] != x {
      assert s[..f][k] == s[k];
    }
  }

  /** Appending a value leaves the first occurrences of the old values where they were. */
  lemma FirstIndexSnoc(s: seq<string>, y: string, x: string)
    requires x in s
    ensures FirstIndex(s + [y], x) == FirstIndex(s, x)
  {
    var r := FirstIndex(s, x);
    assert (s + [y])[..r] == s[..r];
    FirstIndexUnique(s + [y], x, r);
  }

  /** `d` holds only values of `s`, ordered by where each first occurs in `s`. */
  ghost predicate FirstSeenOrder(d: seq<string>, s: seq<string>)
  {
    && (forall i :: 0 <= i < |d| ==> d[i] in s)
    && (forall i, j :: 0 <= i < j < |d| ==> FirstIndex(s, d[i]) < FirstIndex(s, d[j]))
  }

  /** The kept values come in the order of their first occurrence. */
  lemma {:induction false} DedupFirstSeenOrder(s: seq<string>)
    ensures FirstSeenOrder(Dedup(s), s)
    decreases |s|
  {
    if s != [] {
      var init, y := s[..|s| - 1], s[|s| - 1];
      assert s == init + [y];
      var d := Dedup(init);
      DedupFirstSeenOrder(init);
      forall i | 0 <= i < |d|
        ensures d[i] in s && FirstIndex(s, d[i]) == FirstIndex(init, d[i])
      {
        FirstIndexSnoc(init, y, d[i]);
      }
      if y != "" && y !in d {
        DedupMembership(init, y);
        assert y !in init;
        assert s[..|init|] == init;
        FirstIndexUnique(s, y, |init|);
      }
    }
  }

  /** The list only grows: the result for a prefix is a prefix of the result. */
  lemma {:induction false} DedupPrefix(s: seq<string>, t: seq<string>)
    ensures Dedup(s) <= Dedup(s + t)
    decreases |t|
  {
    if t != [] {
      var init := t[..|t| - 1];
      DedupPrefix(s, init);
      assert (s + t)[..|s + t| - 1] == s + init;
      assert Dedup(s + t) == AddIfNew(Dedup(s + init), t[|t| - 1]);
    } else {
      assert s + t == s;
    }
  }

  // ---------------------------------------------------------------------
  // Relays, one after the other
  // ---------------------------------------------------------------------

  lemma {:induction false} CandidatesAppend(a: seq<RelayReply>, b: seq<RelayReply>)
    ensures Candidates(a + b) == Candidates(a) + Candidates(b)
    decreases |b|
  {
    if b != [] {
      var init := b[..|b| - 1];
      CandidatesAppend(a, init);
      assert (a + b)[..|a + b| - 1] == a + init;
      assert Candidates(a + b) == Candidates(a + init) + ReplyHostnames(b[|b| - 1]);
    } else {
      assert a + b == a;
    }
  }

  lemma {:induction false} SuccessCountAppend(a: seq<RelayReply>, b: seq<RelayReply>)
    ensures SuccessCount(a + b) == SuccessCount(a) + SuccessCount(b)
    decreases |b|
  {
    if b != [] {
      var init := b[..|b| - 1];
      SuccessCountAppend(a, init);
      assert (a + b)[..|a + b| - 1] == a + init;
      assert (a + b)[|a + b| - 1] == b[|b| - 1];
    } else {
      assert a + b == a;
    }
  }

  /** Later relays only add to what earlier relays contributed. */
  lemma AggregateAppendOnly(replies: seq<RelayReply>, n: nat)
    requires n <= |replies|
    ensures Aggregate(replies[..n]) <= Aggregate(replies)
  {
    assert replies == replies[..n] + replies[n..];
    CandidatesAppend(replies[..n], replies[n..]);
    DedupPrefix(Candidates(replies[..n]), Candidates(replies[n..]));
  }

  /**
   * A relay whose reply is not a successful query adds no hostname and no
   * success, and does not stop the relays after it.
   */
  lemma FailingRelayIgnored(before: seq<RelayReply>, reply: RelayReply, after: seq<RelayReply>)
    requires SuccessfulResults(reply).None?
    ensures Aggregate(before + [reply] + after) == Aggregate(before + after)
    ensures SuccessCount(before + [reply] + after) == SuccessCount(before + after)
  {
    assert [reply][..0] == [];
    assert Candidates([reply]) == [];
    assert SuccessCount([reply]) == 0;
    CandidatesAppend(before, [reply]);
    CandidatesAppend(before + [reply], after);
    CandidatesAppend(before, after);
    SuccessCountAppend(before, [reply]);
    SuccessCountAppend(before + [reply], after);
    SuccessCountAppend(before, after);
    assert Candidates(before + [reply] + after) == Candidates(before + after);
  }

  /** Without a successful query the lookup finds no hostname. */
  lemma {:induction false} NoSuccessNoHostnames(replies: seq<RelayReply>)
    requires SuccessCount(replies) == 0
    ensures Aggregate(replies) == []
    decreases |replies|
  {
    if replies != [] {
      var init := replies[..|replies| - 1];
      NoSuccessNoHostnames(init);
      assert Candidates(replies) == Candidates(init);
    }
  }

  // ---------------------------------------------------------------------
  // Soundness and completeness
  // ---------------------------------------------------------------------

  /** `reply` is a successful query listing `host` under one of the resolver keys. */
  ghost predicate Offers(reply: RelayReply, host: string)
  {
    match SuccessfulResults(reply)
    case None => false
    case Some(entries) => exists key :: key in ResolverKeys && key in entries && entries[key] == host
  }

  lemma {:induction false} OfferedMembership(entries: map<string, string>, keys: seq<string>, x: string)
    ensures x in Offered(entries, keys) <==> exists key :: key in keys && key in entries && entries[key] == x
    decreases |keys|
  {
    if keys != [] {
      var init := keys[..|keys| - 1];
      OfferedMembership(entries, init, x);
      assert keys == init + [keys[|keys| - 1]];
    }
  }

  lemma {:induction false} CandidatesMembership(replies: seq<RelayReply>, x: string)
    ensures x in Candidates(replies) <==> exists i :: 0 <= i < |replies| && Offers(replies[i], x)
    decreases |replies|
  {
    if replies != [] {
      var n := |replies| - 1;
      var init := replies[..n];
      CandidatesMembership(init, x);
      match SuccessfulResults(replies[n])
      case None =>
      case Some(entries) => OfferedMembership(entries, ResolverKeys, x);
      if x in Candidates(replies) && x !in Candidates(init) {
        assert Offers(replies[n], x);
      }
      if exists i :: 0 <= i < |replies| && Offers(replies[i], x) {
        var i :| 0 <= i < |replies| && Offers(replies[i], x);
        if i < n {
          assert init[i] == replies[i];
        }
      }
    }
  }

  /**
   * A hostname is in the result exactly when it is non-empty and some
   * successful reply lists it under one of the three resolver keys.
   */
  lemma AggregateSoundAndComplete(replies: seq<RelayReply>, host: string)
    ensures host in Aggregate(replies) <==>
            host != "" && exists i :: 0 <= i < |replies| && Offers(replies[i], host)
  {
    DedupMembership(Candidates(replies), host);
    CandidatesMembership(replies, host);
  }

  /** One relay answering a.com, a.com, b.com gives [a.com, b.com]. */
  lemma WorkedExample()
    ensures Aggregate([RelayResponse(HttpOk, ReplyStatus(StatusSuccess, ResultsObject(
              map["8.8.8.8" := "a.com", "1.1.1.1" := "a.com", "9.9.9.9" := "b.com"]))) ])
            == ["a.com", "b.com"]
  {
    var entries := map["8.8.8.8" := "a.com", "1.1.1.1" := "a.com", "9.9.9.9" := "b.com"];
    var reply := RelayResponse(HttpOk, ReplyStatus(StatusSuccess, ResultsObject(entries)));
    assert ResolverKeys[..2] == ["8.8.8.8", "1.1.1.1"];
    assert ResolverKeys[..1] == ["8.8.8.8"];
    assert ResolverKeys[..0] == [];
    assert Offered(entries, ResolverKeys[..1]) == ["a.com"];
    assert Offered(entries, ResolverKeys[..2]) == ["a.com", "a.com"];
    assert Offered(entries, ResolverKeys) == ["a.com", "a.com", "b.com"];
    assert [reply][..0] == [];
    assert Candidates([reply]) == ["a.com", "a.com", "b.com"];
    var c := ["a.com", "a.com", "b.com"];
    assert c[..2][..1] == ["a.com"];
    assert Dedup(c[..1]) == ["a.com"];
    assert Dedup(c[..2]) == ["a.com"];
    assert "a.com" != "b.com";
  }

  // ---------------------------------------------------------------------
  // The whole lookup
  // ---------------------------------------------------------------------

  /** Some queried relay gives a successful reply listing `host`. */
  ghost predicate SomeRelayOffers(fetch: ListFetch, ip: string, network: Network, host: string)
  {
    match RelayUrls(fetch)
    case None => false
    case Some(urls) =>
      var replies := Replies(urls, ip, network);
      exists i :: 0 <= i < |replies| && Offers(replies[i], host)
  }

  /** Soundness and completeness of the whole lookup. */
  lemma LookupSoundAndComplete(fetch: ListFetch, ip: string, network: Network, host: string)
    ensures host in Lookup(fetch, ip, network) <==> host != "" && SomeRelayOffers(fetch, ip, network, host)
  {
    match RelayUrls(fetch)
    case None =>
    case Some(urls) => AggregateSoundAndComplete(Replies(urls, ip, network), host);
  }

  /** A lookup without a successful query returns `[]`. */
  lemma LookupEmptyWithoutSuccess(fetch: ListFetch, ip: string, network: Network)
    requires SuccessfulQueries(fetch, ip, network) == 0
    ensures Lookup(fetch, ip, network) == []
  {
    match RelayUrls(fetch)
    case None =>
    case Some(urls) => NoSuccessNoHostnames(Replies(urls, ip, network));
  }

  /**
   * A relay listed twice is queried twice, and the two answers are counted
   * separately: a timeout followed by a success is one successful query.
   */
  lemma RepeatedRelayQueriedIndependently(entries: map<string, string>)
    ensures var fetch := ListResponse(HttpOk, ListUrls(["relay", "relay"]));
            var network: Network := (i: nat, url: string) =>
              if i == 0 then RelayRequestFailed
              else RelayResponse(HttpOk, ReplyStatus(StatusSuccess, ResultsObject(entries)));
            SuccessfulQueries(fetch, "ip", network) == 1
  {
  }
}
