/** The evoting2.py ballot box: votes are kept in a dict keyed by the
    voter ID, admitted only for voters found on the roll, stored without
    checking the signature, and checked at tally time, when a vote whose
    signature fails is skipped. */
module EVoting2 {
  import opened Common

  /** One row of the voter roll (the CSV columns the handler compares). */
  datatype VoterRow = VoterRow(fullName: string, voterId: string, cardNumber: string, email: string)

  /** A value of the `votes` dict. The voter ID is its key; the public key and
      signature are kept as the base64 strings that were submitted. */
  datatype StoredVote = StoredVote(
    fullName: string, cardNumber: string, email: string,
    candidate: string, signature: string, publicKey: string)

  /** The `votes` dict: its keys in insertion order (the order in which
      Python iterates a dict) and the key-to-value mapping. */
  datatype Box = Box(order: seq<string>, votes: map<string, StoredVote>)

  /** How a submission ends: 400, an uncaught exception (500), 403, and the
      two redirects (back to the index page, on to the confirmation page). */
  datatype Outcome = MissingFields | ServerError | VoterMismatch | AlreadyVoted | Recorded(candidate: string)

  /** The HTTP status of each outcome. A repeat voter gets the same redirect
      status as a recorded one; a server error arises exactly from an
      uncaught exception. */
  function Status(o: Outcome): (r: int)
    ensures r == 302 <==> o.Recorded? || o == AlreadyVoted
    ensures 400 <= r < 500 <==> o == MissingFields || o == VoterMismatch
    ensures r >= 500 <==> o == ServerError
  {
    match o
    case MissingFields => 400
    case ServerError => 500
    case VoterMismatch => 403
    case AlreadyVoted => 302
    case Recorded(_) => 302
  }

  /** A request's JSON body: field name to string value. */
  type Request = map<string, string>

  /** The seven fields `vote()` requires are all in the request. */
  predicate HasRequiredFields(data: Request) {
    && "full_name" in data && "voter_id" in data && "voter_card_number" in data && "email" in data
    && "candidate" in data && "public_key" in data && "signature" in data
  }

  /** Some roll row matches all four identity fields exactly. */
  predicate OnRoll(roll: seq<VoterRow>, row: VoterRow) {
    exists i :: 0 <= i < |roll| && roll[i] == row
  }

  /** The dict's keys are its insertion order, without repetitions. */
  ghost predicate WellFormed(b: Box) {
    && (forall i, j :: 0 <= i < j < |b.order| ==> b.order[i] != b.order[j])
    && (forall k :: k in b.votes <==> k in b.order)
  }

  predicate Decodes(crypto: Crypto, v: StoredVote) {
    crypto.b64decode(v.publicKey).Some? && crypto.b64decode(v.signature).Some?
  }

  /** What `vote()` establishes of every entry it stores: the voter was on
      the roll and both base64 strings decoded. */
  ghost predicate Admissible(roll: seq<VoterRow>, crypto: Crypto, b: Box) {
    forall k :: k in b.votes ==>
      && OnRoll(roll, VoterRow(b.votes[k].fullName, k, b.votes[k].cardNumber, b.votes[k].email))
      && Decodes(crypto, b.votes[k])
  }

  /** One POST to /vote on the dict `b` (evoting2.py `vote()`): the outcome
      and the dict afterwards. Only a recorded vote changes the dict: it then
      holds a voter ID that was not a key before, appended to the insertion
      order, with an entry for the submitted candidate. */
  function Submit(roll: seq<VoterRow>, crypto: Crypto, b: Box, data: Request): (r: (Outcome, Box))
    ensures !r.0.Recorded? ==> r.1 == b
    ensures r.0.Recorded? ==>
      && HasRequiredFields(data) && r.0.candidate == data["candidate"]
      && data["voter_id"] !in b.votes && r.1.order == b.order + [data["voter_id"]]
      && data["voter_id"] in r.1.votes && r.1.votes[data["voter_id"]].candidate == data["candidate"]
  {
    if !HasRequiredFields(data) then (MissingFields, b)
    else
      var voterId := data["voter_id"];
      var row := VoterRow(data["full_name"], voterId, data["voter_card_number"], data["email"]);
      if crypto.b64decode(data["public_key"]).None? || crypto.b64decode(data["signature"]).None? then
        (ServerError, b)
      else if !OnRoll(roll, row) then (VoterMismatch, b)
      else if voterId in b.votes then (AlreadyVoted, b)
      else
        var entry := StoredVote(data["full_name"], data["voter_card_number"], data["email"],
                                data["candidate"], data["signature"], data["public_key"]);
        (Recorded(data["candidate"]), Box(b.order + [voterId], b.votes[voterId := entry]))
  }

  /** The message whose signature the tally checks: the five fields in
      order, with a colon after each of the first four. */
  function TallyMessage(fullName: string, voterId: string, cardNumber: string, email: string, candidate: string): (m: string)
    ensures |m| == |fullName| + |voterId| + |cardNumber| + |email| + |candidate| + 4
    ensures m[..|fullName|] == fullName && m[|fullName|] == ':'
    ensures m[|m| - |candidate|..] == candidate && m[|m| - |candidate| - 1] == ':'
  {
    fullName + ":" + voterId + ":" + cardNumber + ":" + email + ":" + candidate
  }

  /** The stored vote under `voterId` decodes and its signature verifies over
      its tally message under its own public key. */
  predicate Verifies(crypto: Crypto, voterId: string, v: StoredVote): (r: bool)
    ensures r ==> Decodes(crypto, v)
  {
    match (crypto.b64decode(v.publicKey), crypto.b64decode(v.signature))
    case (Some(pk), Some(sig)) =>
      crypto.verify(pk, crypto.utf8(TallyMessage(v.fullName, voterId, v.cardNumber, v.email, v.candidate)), sig) == Verified
    case _ => false
  }

  /** The stored votes, in the order of `ks`, whose signatures verify: no
      more of them than keys, and each one stored and verifying. */
  function VerifiedVotes(crypto: Crypto, ks: seq<string>, m: map<string, StoredVote>): (r: seq<StoredVote>)
    requires forall k :: k in ks ==> k in m
    ensures |r| <= |ks|
    ensures forall v :: v in r ==> v in m.Values && Decodes(crypto, v)
  {
    if ks == [] then []
    else
      var k := ks[|ks| - 1];
      VerifiedVotes(crypto, ks[..|ks| - 1], m) + (if Verifies(crypto, k, m[k]) then [m[k]] else [])
  }

  predicate AllDecode(crypto: Crypto, ks: seq<string>, m: map<string, StoredVote>)
    requires forall k :: k in ks ==> k in m
  {
    forall i :: 0 <= i < |ks| ==> Decodes(crypto, m[ks[i]])
  }

  /** The candidate of each vote, in order. */
  function Candidates(vs: seq<StoredVote>): seq<string> {
    seq(|vs|, i requires 0 <= i < |vs| => vs[i].candidate)
  }

  /** What GET /voting_list renders: the per-candidate counts and the
      verified votes, or the exception a stored string that does not decode
      raises (it is outside the `try`). */
  datatype TallyResult = Aborted | Tallied(counts: map<string, nat>, verified: seq<StoredVote>)

  /** The in-memory state of evoting2.py: the roll loaded at startup, the
      library functions, and the global `votes` dict. */
  class BallotBox {
    const roll: seq<VoterRow>
    const crypto: Crypto
    var order: seq<string>
    var votes: map<string, StoredVote>

    function State(): Box
      reads this
    {
      Box(order, votes)
    }

    ghost predicate Valid()
      reads this
    {
      WellFormed(State())
    }

    ghost predicate AllAdmissible()
      reads this
    {
      Admissible(roll, crypto, State())
    }

    constructor (roll: seq<VoterRow>, crypto: Crypto)
      ensures Valid() && AllAdmissible()
      ensures this.roll == roll && this.crypto == crypto && State() == Box([], map[])
    {
      this.roll := roll;
      this.crypto := crypto;
      order := [];
      votes := map[];
    }

    /** POST /vote (evoting2.py `vote()`). */
    method Vote(data: Request) returns (r: Outcome)
      requires Valid()
      modifies this
      ensures Valid()
      ensures old(AllAdmissible()) ==> AllAdmissible()
      ensures (r, State()) == Submit(roll, crypto, old(State()), data)
    {
      ghost var b := State();
      SubmitPreservesInvariants(roll, crypto, b, data);
      if !HasRequiredFields(data) {
        return MissingFields;
      }
      var fullName, voterId, cardNumber := data["full_name"], data["voter_id"], data["voter_card_number"];
      var email, candidate := data["email"], data["candidate"];
      var onRoll := OnRoll(roll, VoterRow(fullName, voterId, cardNumber, email));
      var publicKey := crypto.b64decode(data["public_key"]);
      var signature := crypto.b64decode(data["signature"]);
      if publicKey.None? || signature.None? {
        return ServerError;
      }
      if !onRoll {
        return VoterMismatch;
      }
      if voterId in votes {
        return AlreadyVoted;
      }
      votes := votes[voterId := StoredVote(fullName, cardNumber, email, candidate, data["signature"], data["public_key"])];
      order := order + [voterId];
      r := Recorded(candidate);
    }

    /** GET /voting_list (evoting2.py `voting_list()`), for a logged-in admin. */
    method VotingList() returns (r: TallyResult)
      requires Valid()
      ensures r.Aborted? <==> !AllDecode(crypto, order, votes)
      ensures AllAdmissible() ==> r.Tallied?
      ensures r.Tallied? ==> r.verified == VerifiedVotes(crypto, order, votes)
      ensures r.Tallied? ==> r.counts == Counter(Candidates(r.verified))
      ensures r.Tallied? ==> SumValues(r.counts) == |r.verified| <= |votes|
    {
      var verified: seq<StoredVote> := [];
      var i := 0;
      while i < |order|
        invariant 0 <= i <= |order|
        invariant AllDecode(crypto, order[..i], votes)
        invariant verified == VerifiedVotes(crypto, order[..i], votes)
      {
        var voterId := order[i];
        var v := votes[voterId];
        var message := TallyMessage(v.fullName, voterId, v.cardNumber, v.email, v.candidate);
        var publicKey := crypto.b64decode(v.publicKey);
        var signature := crypto.b64decode(v.signature);
        if publicKey.None? || signature.None? {
          assert !Decodes(crypto, v);
          return Aborted;
        }
        if crypto.verify(publicKey.value, crypto.utf8(message), signature.value) == Verified {
          verified := verified + [v];
        }
        assert order[..i + 1][..i] == order[..i];
        i := i + 1;
      }
      assert order[..i] == order;
      CounterTotal(Candidates(verified));
      StoreSize(State());
      r := Tallied(Counter(Candidates(verified)), verified);
    }
  }

  /** `Submit` keeps the dict well formed and stores only admissible entries. */
  lemma SubmitPreservesInvariants(roll: seq<VoterRow>, crypto: Crypto, b: Box, data: Request)
    ensures WellFormed(b) ==> WellFormed(Submit(roll, crypto, b, data).1)
    ensures Admissible(roll, crypto, b) ==> Admissible(roll, crypto, Submit(roll, crypto, b, data).1)
  {
  }

  /** `Submit` only appends to the insertion order and never changes an
      entry already stored. */
  lemma SubmitKeepsEntries(roll: seq<VoterRow>, crypto: Crypto, b: Box, data: Request)
    ensures var b' := Submit(roll, crypto, b, data).1;
      && b.order <= b'.order
      && forall k :: k in b.votes ==> k in b'.votes && b'.votes[k] == b.votes[k]
  {
  }

  /** As many votes as keys in the insertion order. */
  lemma StoreSize(b: Box)
    requires WellFormed(b)
    ensures |b.votes| == |b.order|
  {
    DistinctCard(b.order);
    assert b.votes.Keys == set k | k in b.order;
  }

  /** The outcome of a submission, case by case: a request without all
      seven fields is refused with the dict untouched; one whose key or
      signature does not decode raises; off-roll voters are refused; a voter
      ID already present is refused; otherwise exactly the submitted entry is
      added under the new voter ID and nothing else changes. */
  lemma SubmitOutcomes(roll: seq<VoterRow>, crypto: Crypto, b: Box, data: Request)
    ensures var (r, b') := Submit(roll, crypto, b, data);
      && (r == MissingFields <==> !HasRequiredFields(data))
      && (!r.Recorded? ==> b' == b)
      && (HasRequiredFields(data) ==>
            && (r == ServerError <==>
                  crypto.b64decode(data["public_key"]).None? || crypto.b64decode(data["signature"]).None?)
            && (r.Recorded? || r == AlreadyVoted ==>
                  OnRoll(roll, VoterRow(data["full_name"], data["voter_id"], data["voter_card_number"], data["email"])))
            && (r == AlreadyVoted ==> data["voter_id"] in b.votes)
            && (r == VoterMismatch <==>
                  && Decodes(crypto, StoredVote("", "", "", "", data["signature"], data["public_key"]))
                  && !OnRoll(roll, VoterRow(data["full_name"], data["voter_id"], data["voter_card_number"], data["email"])))
            && (r == AlreadyVoted <==>
                  && Decodes(crypto, StoredVote("", "", "", "", data["signature"], data["public_key"]))
                  && OnRoll(roll, VoterRow(data["full_name"], data["voter_id"], data["voter_card_number"], data["email"]))
                  && data["voter_id"] in b.votes)
            && (r.Recorded? <==>
                  && Decodes(crypto, StoredVote("", "", "", "", data["signature"], data["public_key"]))
                  && OnRoll(roll, VoterRow(data["full_name"], data["voter_id"], data["voter_card_number"], data["email"]))
                  && data["voter_id"] !in b.votes))
      && (r.Recorded? ==>
            && r.candidate == data["candidate"]
            && b'.order == b.order + [data["voter_id"]]
            && b'.votes == b.votes[data["voter_id"] := StoredVote(data["full_name"], data["voter_card_number"],
                 data["email"], data["candidate"], data["signature"], data["public_key"])])
  {
  }

  /** A voter that no roll row matches is never recorded and never told that
      they already voted, whatever the dict holds. */
  lemma OffRollNeverAdmitted(roll: seq<VoterRow>, crypto: Crypto, b: Box, data: Request)
    requires HasRequiredFields(data)
    requires !OnRoll(roll, VoterRow(data["full_name"], data["voter_id"], data["voter_card_number"], data["email"]))
    ensures Submit(roll, crypto, b, data).0 in {VoterMismatch, ServerError}
    ensures Submit(roll, crypto, b, data).1 == b
  {
  }

  /** The dict after a sequence of submissions, one at a time. */
  function Run(roll: seq<VoterRow>, crypto: Crypto, b: Box, reqs: seq<Request>): Box {
    if reqs == [] then b
    else Submit(roll, crypto, Run(roll, crypto, b, reqs[..|reqs| - 1]), reqs[|reqs| - 1]).1
  }

  /** Across any sequence of submissions the dict stays well formed and
      admissible, keys are only ever appended, and no entry is overwritten:
      at most one ballot per voter ID, and the first one stays. */
  lemma {:induction false} RunKeepsBallots(roll: seq<VoterRow>, crypto: Crypto, b: Box, reqs: seq<Request>)
    requires WellFormed(b) && Admissible(roll, crypto, b)
    ensures var b' := Run(roll, crypto, b, reqs);
      && WellFormed(b') && Admissible(roll, crypto, b')
      && b.order <= b'.order
      && forall k :: k in b.votes ==> k in b'.votes && b'.votes[k] == b.votes[k]
  {
    if reqs != [] {
      var prev := Run(roll, crypto, b, reqs[..|reqs| - 1]);
      RunKeepsBallots(roll, crypto, b, reqs[..|reqs| - 1]);
      SubmitPreservesInvariants(roll, crypto, prev, reqs[|reqs| - 1]);
      SubmitKeepsEntries(roll, crypto, prev, reqs[|reqs| - 1]);
    }
  }

  /** Once a voter ID is recorded, a later submission under the same voter
      ID (for any candidate) changes nothing: the first ballot stays. */
  lemma SecondVoteKeepsFirst(roll: seq<VoterRow>, crypto: Crypto, b: Box, first: Request, again: Request)
    requires Submit(roll, crypto, b, first).0.Recorded?
    requires HasRequiredFields(again) && again["voter_id"] == first["voter_id"]
    ensures var b1 := Submit(roll, crypto, b, first).1;
      && !Submit(roll, crypto, b1, again).0.Recorded?
      && Submit(roll, crypto, b1, again).1 == b1
      && b1.votes[first["voter_id"]].candidate == first["candidate"]
  {
  }

  /** Verification filters each part of a split independently, so the
      verified votes are an ordered subsequence of the stored ones. */
  lemma {:induction false} VerifiedVotesAppend(crypto: Crypto, ks: seq<string>, ks': seq<string>, m: map<string, StoredVote>)
    requires forall k :: k in ks + ks' ==> k in m
    ensures VerifiedVotes(crypto, ks + ks', m) == VerifiedVotes(crypto, ks, m) + VerifiedVotes(crypto, ks', m)
  {
    if ks' != [] {
      var init := ks'[..|ks'| - 1];
      assert (ks + ks')[..|ks + ks'| - 1] == ks + init;
      VerifiedVotesAppend(crypto, ks, init, m);
    } else {
      assert ks + ks' == ks;
    }
  }

  /** A vote is among the verified ones exactly when some key in `ks` holds
      it and its signature verifies there. */
  lemma {:induction false} VerifiedVotesMembers(crypto: Crypto, ks: seq<string>, m: map<string, StoredVote>, v: StoredVote)
    requires forall k :: k in ks ==> k in m
    ensures v in VerifiedVotes(crypto, ks, m) <==>
            exists i :: 0 <= i < |ks| && m[ks[i]] == v && Verifies(crypto, ks[i], v)
  {
    if ks != [] {
      var init := ks[..|ks| - 1];
      VerifiedVotesMembers(crypto, init, m, v);
      if exists i :: 0 <= i < |ks| && m[ks[i]] == v && Verifies(crypto, ks[i], v) {
        var i :| 0 <= i < |ks| && m[ks[i]] == v && Verifies(crypto, ks[i], v);
        if i < |init| {
          assert init[i] == ks[i];
        }
      }
    }
  }

  /** A stored vote whose signature does not verify is left out without
      affecting the count of anything before or after it. */
  lemma TamperedVoteExcluded(crypto: Crypto, ks: seq<string>, k: string, ks': seq<string>, m: map<string, StoredVote>)
    requires forall j :: j in ks + [k] + ks' ==> j in m
    requires !Verifies(crypto, k, m[k])
    ensures VerifiedVotes(crypto, ks + [k] + ks', m) == VerifiedVotes(crypto, ks, m) + VerifiedVotes(crypto, ks', m)
  {
    VerifiedVotesAppend(crypto, ks + [k], ks', m);
    assert (ks + [k])[..|ks + [k]| - 1] == ks;
    assert VerifiedVotes(crypto, ks + [k], m) == VerifiedVotes(crypto, ks, m);
  }

  /** The tally message determines its five fields when the first four
      contain no colon. */
  lemma TallyMessageInjective(a: string, b: string, c: string, d: string, e: string,
                              a': string, b': string, c': string, d': string, e': string)
    requires ':' !in a && ':' !in b && ':' !in c && ':' !in d
    requires ':' !in a' && ':' !in b' && ':' !in c' && ':' !in d'
    requires TallyMessage(a, b, c, d, e) == TallyMessage(a', b', c', d', e')
    ensures a == a' && b == b' && c == c' && d == d' && e == e'
  {
    JoinedInjective(a, b, c, d, e, a', b', c', d', e');
  }

  lemma JoinedInjective(a: string, b: string, c: string, d: string, e: string,
                        a': string, b': string, c': string, d': string, e': string)
    requires ':' !in a && ':' !in b && ':' !in c && ':' !in d
    requires ':' !in a' && ':' !in b' && ':' !in c' && ':' !in d'
    requires a + ":" + b + ":" + c + ":" + d + ":" + e == a' + ":" + b' + ":" + c' + ":" + d' + ":" + e'
    ensures a == a' && b == b' && c == c' && d == d' && e == e'
  {
    assert a + ":" + b + ":" + c + ":" + d + ":" + e == a + ":" + (b + ":" + c + ":" + d + ":" + e);
    assert a' + ":" + b' + ":" + c' + ":" + d' + ":" + e' == a' + ":" + (b' + ":" + c' + ":" + d' + ":" + e');
    SplitAtColon(a, b + ":" + c + ":" + d + ":" + e, a', b' + ":" + c' + ":" + d' + ":" + e');
    assert b + ":" + c + ":" + d + ":" + e == b + ":" + (c + ":" + d + ":" + e);
    assert b' + ":" + c' + ":" + d' + ":" + e' == b' + ":" + (c' + ":" + d' + ":" + e');
    SplitAtColon(b, c + ":" + d + ":" + e, b', c' + ":" + d' + ":" + e');
    assert c + ":" + d + ":" + e == c + ":" + (d + ":" + e);
    assert c' + ":" + d' + ":" + e' == c' + ":" + (d' + ":" + e');
    SplitAtColon(c, d + ":" + e, c', d' + ":" + e');
    SplitAtColon(d, e, d', e');
  }

  /** With a colon inside a field the tally message is ambiguous: the same
      string, hence the same signature, stands for two different splits of
      full name and voter ID. */
  lemma TallyMessageAmbiguous()
    ensures TallyMessage("a:b", "c", "n", "e", "x") == TallyMessage("a", "b:c", "n", "e", "x")
  {
  }

  lemma SplitAtColon(x: string, y: string, x': string, y': string)
    requires ':' !in x && ':' !in x'
    requires x + ":" + y == x' + ":" + y'
    ensures x == x' && y == y'
  {
    var t := x + ":" + y;
    assert t[|x|] == ':';
    assert t[|x'|] == ':' by { assert t == x' + ":" + y'; }
    assert x == t[..|x|] && x' == t[..|x'|];
    assert y == t[|x| + 1..] && y' == t[|x'| + 1..];
  }

  /** Scenario: on an empty dict, voter V votes for A with a
      signature that verifies, then submits again for another candidate; the
      second submission is turned away and the tally shows one vote for A. */
  lemma RepeatVoterCountedOnce(roll: seq<VoterRow>, crypto: Crypto, first: Request, again: Request)
    requires Submit(roll, crypto, Box([], map[]), first).0.Recorded?
    requires var v := Submit(roll, crypto, Box([], map[]), first).1;
      Verifies(crypto, first["voter_id"], v.votes[first["voter_id"]])
    requires HasRequiredFields(again) && again["voter_id"] == first["voter_id"]
    ensures var b := Run(roll, crypto, Box([], map[]), [first, again]);
      && b.order == [first["voter_id"]] && first["voter_id"] in b.votes
      && VerifiedVotes(crypto, b.order, b.votes) == [b.votes[first["voter_id"]]]
      && Counter(Candidates(VerifiedVotes(crypto, b.order, b.votes))) == map[first["candidate"] := 1]
  {
    var empty := Box([], map[]);
    var b1 := Submit(roll, crypto, empty, first).1;
    assert Run(roll, crypto, empty, [first]) == b1 by {
      assert [first][..0] == [];
    }
    assert [first, again][..1] == [first];
    var b := Run(roll, crypto, empty, [first, again]);
    assert b == b1;
    var k := first["voter_id"];
    assert b.order == [k] && k in b.votes;
    assert [k][..0] == [];
    assert Verifies(crypto, k, b.votes[k]);
    var vs := VerifiedVotes(crypto, b.order, b.votes);
    assert vs == VerifiedVotes(crypto, [], b.votes) + [b.votes[k]];
    assert vs == [b.votes[k]];
    var cs := Candidates(vs);
    assert cs == [first["candidate"]];
    assert cs[..0] == [];
  }
}
