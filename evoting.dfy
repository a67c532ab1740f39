/** The evoting.py ballot box: votes are appended to a list, duplicates are
    refused on a client-supplied voter hash kept in a set, the signature is
    checked at submission over a JSON message, and the tally counts every
    stored vote. */
module EVoting {
  import opened Common
  import opened Json

  /** `base64_decode_safe`'s padding: enough `=` to make the length a
      multiple of four. */
  function PadBase64(s: string): (r: string)
    ensures |r| % 4 == 0
    ensures s <= r && |r| < |s| + 4
    ensures forall i :: |s| <= i < |r| ==> r[i] == '='
    ensures |s| % 4 == 0 ==> r == s
  {
    s + seq((4 - |s| % 4) % 4, _ => '=')
  }

  /** `base64_decode_safe`: decode after padding. No handler calls it. The
      result is what `b64decode` gives for the input with just enough `=`
      appended to reach a multiple of four. */
  function Base64DecodeSafe(crypto: Crypto, s: string): (r: Option<Bytes>)
    ensures |s| % 4 == 0 ==> r == crypto.b64decode(s)
    ensures |s| % 4 == 3 ==> r == crypto.b64decode(s + "=")
    ensures |s| % 4 == 2 ==> r == crypto.b64decode(s + "==")
    ensures |s| % 4 == 1 ==> r == crypto.b64decode(s + "===")
  {
    var p := PadBase64(s);
    assert |s| % 4 == 3 ==> p == s + "=";
    assert |s| % 4 == 2 ==> p == s + "==";
    assert |s| % 4 == 1 ==> p == s + "===";
    crypto.b64decode(p)
  }

  /** One entry of the `votes` list. */
  datatype ListVote = ListVote(voterHash: string, candidate: string, publicKey: string, signature: string)

  /** The global `votes` list and `used_voter_hashes` set. A request without
      `voter_id_hashed` contributes Python's None, here `None`. */
  datatype Ledger = Ledger(votes: seq<ListVote>, used: set<Option<string>>)

  /** How a submission ends: 400 for missing fields, 500 from the catch-all
      handler, 403 for a hash already used, 400 for a bad signature, 200. */
  datatype Outcome = MissingFields | ServerError | AlreadyVoted | InvalidSignature | Recorded(candidate: string)

  /** The HTTP status of each outcome: success exactly for a recorded vote,
      403 exactly for a used hash, and a server error exactly where an
      exception reaches the catch-all handler. */
  function Status(o: Outcome): (r: int)
    ensures 200 <= r < 300 <==> o.Recorded?
    ensures r == 403 <==> o == AlreadyVoted
    ensures r >= 500 <==> o == ServerError
    ensures 400 <= r < 500 <==> o in {MissingFields, AlreadyVoted, InvalidSignature}
  {
    match o
    case MissingFields => 400
    case ServerError => 500
    case AlreadyVoted => 403
    case InvalidSignature => 400
    case Recorded(_) => 200
  }

  type Request = map<string, string>

  /** `data.get(k)`. */
  function Field(data: Request, k: string): Option<string> {
    if k in data then Some(data[k]) else None
  }

  /** The field is there and is not the empty string (Python truthiness). */
  predicate Present(data: Request, k: string) {
    k in data && data[k] != ""
  }

  /** The signed message: `json.dumps({"voter_hash": h, "candidate": c},
      separators=(',', ':'))`: a JSON object whose first key is `voter_hash`,
      holding every character of both fields. */
  function VoteMessage(voterHash: string, candidate: string): (m: string)
    ensures "{\"voter_hash\":\"" <= m && m[|m| - 2..] == "\"}"
    ensures |m| >= |voterHash| + |candidate| + 32
  {
    "{\"voter_hash\":" + DumpString(voterHash) + ",\"candidate\":" + DumpString(candidate) + "}"
  }

  /** One POST to /vote on the state `l` (evoting.py `vote()`). Stored votes
      and used hashes are never removed; exactly one vote is appended exactly
      when the outcome is a recorded vote; a request with missing fields or
      a used hash changes nothing. */
  function Submit(crypto: Crypto, l: Ledger, data: Request): (r: (Outcome, Ledger))
    ensures l.votes <= r.1.votes && l.used <= r.1.used
    ensures r.0.Recorded? <==> |r.1.votes| == |l.votes| + 1
    ensures !r.0.Recorded? ==> r.1.votes == l.votes
    ensures r.0 == MissingFields || r.0 == AlreadyVoted ==> r.1 == l
  {
    if !Present(data, "public_key") || !Present(data, "signature") || !Present(data, "candidate") then
      (MissingFields, l)
    else
      var publicKey, signature, candidate := data["public_key"], data["signature"], data["candidate"];
      match (crypto.b64decode(publicKey), crypto.b64decode(signature))
      case (Some(pk), Some(sig)) =>
        var voterHash := crypto.sha256Hex(pk);
        var message := VoteMessage(voterHash, candidate);
        var claimed := Field(data, "voter_id_hashed");
        if claimed in l.used then (AlreadyVoted, l)
        else
          var used := l.used + {claimed};
          (match crypto.verify(pk, crypto.utf8(message), sig)
           case BadSignature => (InvalidSignature, Ledger(l.votes, used))
           case Malformed => (ServerError, Ledger(l.votes, used))
           case Verified =>
             (Recorded(candidate), Ledger(l.votes + [ListVote(voterHash, candidate, publicKey, signature)], used)))
      case _ => (ServerError, l)
  }

  /** The candidate of each vote, in order. */
  function Candidates(vs: seq<ListVote>): (cs: seq<string>)
    ensures |cs| == |vs| && forall i :: 0 <= i < |vs| ==> cs[i] == vs[i].candidate
  {
    seq(|vs|, i requires 0 <= i < |vs| => vs[i].candidate)
  }

  /** The in-memory state of evoting.py. */
  class BallotList {
    const crypto: Crypto
    var votes: seq<ListVote>
    var usedVoterHashes: set<Option<string>>

    function State(): Ledger
      reads this
    {
      Ledger(votes, usedVoterHashes)
    }

    /** Every stored vote used up a distinct voter hash. */
    ghost predicate Valid()
      reads this
    {
      |votes| <= |usedVoterHashes|
    }

    constructor (crypto: Crypto)
      ensures Valid() && this.crypto == crypto && State() == Ledger([], {})
    {
      this.crypto := crypto;
      votes := [];
      usedVoterHashes := {};
    }

    /** POST /vote (evoting.py `vote()`). */
    method Vote(data: Request) returns (r: Outcome)
      requires Valid()
      modifies this
      ensures Valid()
      ensures (r, State()) == Submit(crypto, old(State()), data)
    {
      if !Present(data, "public_key") || !Present(data, "signature") || !Present(data, "candidate") {
        return MissingFields;
      }
      var claimed := Field(data, "voter_id_hashed");
      var publicKey, signature, candidate := data["public_key"], data["signature"], data["candidate"];
      var decodedPublicKey := crypto.b64decode(publicKey);
      if decodedPublicKey.None? {
        return ServerError;
      }
      var decodedSignature := crypto.b64decode(signature);
      if decodedSignature.None? {
        return ServerError;
      }
      var voterHash := crypto.sha256Hex(decodedPublicKey.value);
      var message := VoteMessage(voterHash, candidate);
      if claimed in usedVoterHashes {
        return AlreadyVoted;
      }
      usedVoterHashes := usedVoterHashes + {claimed};
      var verdict := crypto.verify(decodedPublicKey.value, crypto.utf8(message), decodedSignature.value);
      if verdict == BadSignature {
        return InvalidSignature;
      } else if verdict == Malformed {
        return ServerError;
      }
      votes := votes + [ListVote(voterHash, candidate, publicKey, signature)];
      r := Recorded(candidate);
    }

    /** GET /voting_list (evoting.py `voting_list()`), for a logged-in admin:
        every stored vote is counted, none is checked again. */
    function VotingList(): (counts: map<string, nat>)
      reads this
      ensures forall c :: c in counts <==> exists i :: 0 <= i < |votes| && votes[i].candidate == c
      ensures forall c :: c in counts ==> counts[c] == multiset(Candidates(votes))[c]
      ensures SumValues(counts) == |votes|
    {
      CounterTotal(Candidates(votes));
      Counter(Candidates(votes))
    }
  }

  /** The three fields are there and both base64 strings decode, so the
      submission reaches the duplicate check (evoting.py line 98). */
  predicate Decodable(crypto: Crypto, data: Request) {
    && Present(data, "public_key") && Present(data, "signature") && Present(data, "candidate")
    && crypto.b64decode(data["public_key"]).Some? && crypto.b64decode(data["signature"]).Some?
  }

  /** How the signature check of a decodable submission ends. */
  function Verdict(crypto: Crypto, data: Request): VerifyOutcome
    requires Decodable(crypto, data)
  {
    var pk := crypto.b64decode(data["public_key"]).value;
    crypto.verify(pk, crypto.utf8(VoteMessage(crypto.sha256Hex(pk), data["candidate"])),
                  crypto.b64decode(data["signature"]).value)
  }

  /** A submission gets past the duplicate check and reaches the line that
      marks its hash as used. */
  predicate PassesDedup(crypto: Crypto, l: Ledger, data: Request) {
    Decodable(crypto, data) && Field(data, "voter_id_hashed") !in l.used
  }

  /** The outcome of a submission, case by case. Nothing changes unless the
      duplicate check is passed; once it is, the claimed hash is used up
      whatever the signature check says, and only a verified signature
      appends a vote: exactly one, at the end, with the recomputed voter hash. */
  lemma SubmitOutcomes(crypto: Crypto, l: Ledger, data: Request)
    ensures var (r, l') := Submit(crypto, l, data);
      && (r == MissingFields <==>
            !Present(data, "public_key") || !Present(data, "signature") || !Present(data, "candidate"))
      && ((Present(data, "public_key") && Present(data, "signature") && Present(data, "candidate")
           && !Decodable(crypto, data)) ==> r == ServerError && l' == l)
      && (Decodable(crypto, data) && Field(data, "voter_id_hashed") in l.used ==> r == AlreadyVoted && l' == l)
      && (!PassesDedup(crypto, l, data) ==> l' == l && r in {MissingFields, ServerError, AlreadyVoted})
      && (r == AlreadyVoted ==> Field(data, "voter_id_hashed") in l.used)
      && (PassesDedup(crypto, l, data) ==>
            && l'.used == l.used + {Field(data, "voter_id_hashed")}
            && (r.Recorded? <==> Verdict(crypto, data) == Verified)
            && (r == InvalidSignature <==> Verdict(crypto, data) == BadSignature)
            && (r == ServerError <==> Verdict(crypto, data) == Malformed))
      && (!r.Recorded? ==> l'.votes == l.votes)
      && (r.Recorded? ==>
            var pk := crypto.b64decode(data["public_key"]).value;
            var sig := crypto.b64decode(data["signature"]).value;
            var h := crypto.sha256Hex(pk);
            && PassesDedup(crypto, l, data)
            && crypto.verify(pk, crypto.utf8(VoteMessage(h, data["candidate"])), sig) == Verified
            && r.candidate == data["candidate"]
            && l'.votes == l.votes + [ListVote(h, data["candidate"], data["public_key"], data["signature"])])
  {
  }

  /** A signature that fails after the duplicate check still uses up the
      claimed hash: a later submission under that hash is refused even with
      a signature that verifies. */
  lemma BadSignatureBurnsHash(crypto: Crypto, l: Ledger, data: Request, retry: Request)
    requires PassesDedup(crypto, l, data)
    requires Verdict(crypto, data) == BadSignature
    requires Present(retry, "public_key") && Present(retry, "signature") && Present(retry, "candidate")
    requires crypto.b64decode(retry["public_key"]).Some? && crypto.b64decode(retry["signature"]).Some?
    requires Field(retry, "voter_id_hashed") == Field(data, "voter_id_hashed")
    ensures Submit(crypto, l, data).0 == InvalidSignature && Status(Submit(crypto, l, data).0) == 400
    ensures Submit(crypto, l, data).1.votes == l.votes
    ensures Field(data, "voter_id_hashed") in Submit(crypto, l, data).1.used
    ensures Submit(crypto, Submit(crypto, l, data).1, retry) == (AlreadyVoted, Submit(crypto, l, data).1)
  {
  }

  /** The duplicate check looks only at the hash the client claims: the same
      key, signature and candidate sent under a claimed hash not seen before
      are recorded a second time. */
  lemma FreshClaimRecordsAgain(crypto: Crypto, l: Ledger, data: Request, h: string)
    requires Submit(crypto, l, data).0.Recorded?
    requires Some(h) !in Submit(crypto, l, data).1.used
    ensures var l1 := Submit(crypto, l, data).1;
      var (r, l2) := Submit(crypto, l1, data["voter_id_hashed" := h]);
      r.Recorded? && |l2.votes| == |l.votes| + 2 && l2.votes[|l.votes|] == l2.votes[|l.votes| + 1]
  {
    var data' := data["voter_id_hashed" := h];
    assert data'["public_key"] == data["public_key"] && data'["signature"] == data["signature"];
    assert data'["candidate"] == data["candidate"];
  }

  /** `Submit` keeps the bound of the class invariant, never removes a used
      hash and never rewrites a stored vote. */
  lemma SubmitKeepsLedger(crypto: Crypto, l: Ledger, data: Request)
    ensures var l' := Submit(crypto, l, data).1;
      && (|l.votes| <= |l.used| ==> |l'.votes| <= |l'.used|)
      && l.used <= l'.used
      && l.votes <= l'.votes
      && |l'.votes| <= |l.votes| + 1
  {
    var claimed := Field(data, "voter_id_hashed");
    if PassesDedup(crypto, l, data) {
      assert |l.used + {claimed}| == |l.used| + 1;
    }
  }

  /** The state after a sequence of submissions, one at a time. */
  function Run(crypto: Crypto, l: Ledger, reqs: seq<Request>): Ledger {
    if reqs == [] then l
    else Submit(crypto, Run(crypto, l, reqs[..|reqs| - 1]), reqs[|reqs| - 1]).1
  }

  /** Across any sequence of submissions, starting from a state that meets
      it, there are never more votes than used hashes, and both only grow. */
  lemma {:induction false} RunKeepsLedger(crypto: Crypto, l: Ledger, reqs: seq<Request>)
    requires |l.votes| <= |l.used|
    ensures var l' := Run(crypto, l, reqs);
      |l'.votes| <= |l'.used| && l.used <= l'.used && l.votes <= l'.votes
  {
    if reqs != [] {
      RunKeepsLedger(crypto, l, reqs[..|reqs| - 1]);
      SubmitKeepsLedger(crypto, Run(crypto, l, reqs[..|reqs| - 1]), reqs[|reqs| - 1]);
    }
  }

  /** The used hashes only grow between two points of a run. */
  lemma {:induction false} RunUsedGrows(crypto: Crypto, l: Ledger, reqs: seq<Request>, i: nat, j: nat)
    requires i <= j <= |reqs|
    ensures Run(crypto, l, reqs[..i]).used <= Run(crypto, l, reqs[..j]).used
    decreases j - i
  {
    if i < j {
      RunUsedGrows(crypto, l, reqs, i + 1, j);
      assert reqs[..i + 1][..i] == reqs[..i];
      SubmitKeepsLedger(crypto, Run(crypto, l, reqs[..i]), reqs[i]);
    }
  }

  /** Each claimed hash gets past the duplicate check at most once in a run:
      two requests that both pass it claim different hashes. */
  lemma AdmittedAtMostOnce(crypto: Crypto, l: Ledger, reqs: seq<Request>, i: nat, j: nat)
    requires i < j < |reqs|
    requires PassesDedup(crypto, Run(crypto, l, reqs[..i]), reqs[i])
    requires PassesDedup(crypto, Run(crypto, l, reqs[..j]), reqs[j])
    ensures Field(reqs[i], "voter_id_hashed") != Field(reqs[j], "voter_id_hashed")
  {
    assert reqs[..i + 1][..i] == reqs[..i];
    assert Field(reqs[i], "voter_id_hashed") in Run(crypto, l, reqs[..i + 1]).used;
    RunUsedGrows(crypto, l, reqs, i + 1, j);
  }

  /** Strips the prefix `p` off `t`. */
  function ExpectPrefix(p: string, t: string): Option<string> {
    if p <= t then Some(t[|p|..]) else None
  }

  lemma ExpectPrefixAppend(p: string, t: string)
    ensures ExpectPrefix(p, p + t) == Some(t)
  {
    assert (p + t)[|p|..] == t;
  }

  /** Reads the two fields back out of a vote message. */
  function ParseVoteMessage(m: string): Option<(string, string)> {
    match ExpectPrefix("{\"voter_hash\":", m)
    case None => None
    case Some(t1) =>
      match ReadLiteral(t1)
      case None => None
      case Some((voterHash, t2)) =>
        match ExpectPrefix(",\"candidate\":", t2)
        case None => None
        case Some(t3) =>
          match ReadLiteral(t3)
          case None => None
          case Some((candidate, t4)) => if t4 == "}" then Some((voterHash, candidate)) else None
  }

  /** The vote message can be read back into the hash and candidate it was
      built from. */
  lemma ParseVoteMessageInverts(voterHash: string, candidate: string)
    ensures ParseVoteMessage(VoteMessage(voterHash, candidate)) == Some((voterHash, candidate))
  {
    var p1, p2 := "{\"voter_hash\":", ",\"candidate\":";
    var d1, d2 := DumpString(voterHash), DumpString(candidate);
    var rest1 := d1 + (p2 + (d2 + "}"));
    assert VoteMessage(voterHash, candidate) == p1 + rest1;
    ExpectPrefixAppend(p1, rest1);
    ReadLiteralDumped(voterHash, p2 + (d2 + "}"));
    ExpectPrefixAppend(p2, d2 + "}");
    ReadLiteralDumped(candidate, "}");
  }

  /** Different (hash, candidate) pairs give different signed messages. */
  lemma VoteMessageInjective(voterHash: string, candidate: string, voterHash': string, candidate': string)
    requires VoteMessage(voterHash, candidate) == VoteMessage(voterHash', candidate')
    ensures voterHash == voterHash' && candidate == candidate'
  {
    ParseVoteMessageInverts(voterHash, candidate);
    ParseVoteMessageInverts(voterHash', candidate');
  }

  /** Scenario: on an empty state a vote for A whose signature verifies is
      recorded; a second submission under the same claimed hash, for any
      candidate, is refused, leaving one vote and a tally of one for A. */
  lemma RepeatVoterCountedOnce(crypto: Crypto, first: Request, again: Request)
    requires Decodable(crypto, first) && Verdict(crypto, first) == Verified
    requires Field(again, "voter_id_hashed") == Field(first, "voter_id_hashed")
    ensures Submit(crypto, Ledger([], {}), first).0 == Recorded(first["candidate"])
    ensures !Submit(crypto, Submit(crypto, Ledger([], {}), first).1, again).0.Recorded?
    ensures var l := Run(crypto, Ledger([], {}), [first, again]);
      && |l.votes| == 1 && l.votes[0].candidate == first["candidate"]
      && Counter(Candidates(l.votes)) == map[first["candidate"] := 1]
  {
    var empty := Ledger([], {});
    var l1 := Submit(crypto, empty, first).1;
    assert [first][..0] == [];
    assert Run(crypto, empty, [first]) == l1;
    assert [first, again][..1] == [first];
    var l := Run(crypto, empty, [first, again]);
    assert l == Submit(crypto, l1, again).1;
    assert Field(again, "voter_id_hashed") in l1.used;
    assert l.votes == l1.votes;
    var cs := Candidates(l.votes);
    assert cs == [first["candidate"]];
    assert cs[..0] == [];
  }
}
