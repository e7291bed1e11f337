/** What one ingestion does, said of the envelope's own fields. */
module IngressRules {
  import opened Wrappers
  import opened Evidence
  import opened Json
  import opened Digests
  import opened DigestRules
  import opened Ingress

  /** The text under a key of a part of the envelope. */
  ghost predicate Names(e: Envelope, part: string, key: string, text: string) {
    exists ms :: Get(e, part) == Some(Obj(ms)) && Get(ms, key) == Some(Str(text))
  }

  /** An envelope worth keeping: well formed, with an id, and declaring the digest of its content. */
  ghost predicate Sound(e: Envelope, c: Config, id: string, algorithm: string, value: string) {
    && c.wellFormed(e) && id != "" && Names(e, "resource", "id", id)
    && Names(e, "digest", "value", value) && ComputeDigest(e, algorithm, c.hash) == Some(value)
    && exists declared :: Get(e, "digest") == Some(Obj(declared)) && Declares(declared, algorithm)
  }

  lemma NamesIs(e: Envelope, part: string, key: string, text: string)
    requires text != ""
    ensures TextOf(Part(e, part), key, "") == text <==> Names(e, part, key, text)
  {
    if Get(e, part).Some? && Get(e, part).value.Obj? {
      var ms := Get(e, part).value.members;
      assert Get(e, part) == Some(Obj(ms));
    }
  }

  lemma SoundHasFacts(e: Envelope, c: Config, id: string, algorithm: string, value: string)
    requires Sound(e, c, id, algorithm, value)
    ensures FactsOf(e, c) == Facts(true, id, algorithm, value)
  {
    NamesIs(e, "resource", "id", id);
    var declared :| Get(e, "digest") == Some(Obj(declared)) && Declares(declared, algorithm);
    assert IsDigest(value, e, c.hash, declared, algorithm) && Get(declared, "value") == Some(Str(value));
    VerifiesIff(e, c.hash);
    assert value != "";
    NamesIs(e, "digest", "value", value);
    assert Part(e, "digest") == declared;
  }

  lemma FactsAreSound(e: Envelope, c: Config)
    requires Valid(e, c) && ResourceId(e) != ""
    ensures Sound(e, c, ResourceId(e), Algorithm(e), DigestValue(e))
  {
    NamesIs(e, "resource", "id", ResourceId(e));
    VerifiesIff(e, c.hash);
    var declared, algorithm, value :|
      IsDigest(value, e, c.hash, declared, algorithm) && Get(declared, "value") == Some(Str(value));
    assert Get(e, "digest") == Some(Obj(declared));
    assert Part(e, "digest") == declared && Algorithm(e) == algorithm && DigestValue(e) == value;
    assert Names(e, "digest", "value", value);
  }

  ghost predicate IsSound(e: Envelope, c: Config) {
    exists id, algorithm, value :: Sound(e, c, id, algorithm, value)
  }

  /** An envelope that is not sound is rejected, and nothing is stored. */
  lemma RejectedIff(s: State, e: Envelope, org: string, c: Config)
    ensures Ingest(s, e, org, ReaderOf(c)).1.status == Rejected <==> !IsSound(e, c)
    ensures !IsSound(e, c) ==> Ingest(s, e, org, ReaderOf(c)).0 == s
  {
    if Valid(e, c) && ResourceId(e) != "" { FactsAreSound(e, c); }
    if id, algorithm, value :| Sound(e, c, id, algorithm, value) { SoundHasFacts(e, c, id, algorithm, value); }
  }

  /** A sound envelope is stored as it declares itself, recognised, or kept apart as a conflict with what is stored. */
  lemma SoundIsIngested(
      s: State, e: Envelope, org: string, c: Config, id: string, algorithm: string, value: string)
    requires Sound(e, c, id, algorithm, value)
    ensures var (u, receipt) := Ingest(s, e, org, ReaderOf(c));
      && receipt.resourceId == id && receipt.digest == value
      && if id !in s.resources || s.resources[id].org != org then
           && receipt.status == Accepted && u.conflicts == s.conflicts && u.next == s.next
           && u.resources == s.resources[id := Resource(id, org, "", algorithm, value, "dep://payload/" + id)]
           && u.payloads == s.payloads["dep://payload/" + id := e]
         else if s.resources[id].digest == value then receipt.status == Duplicate && u == s
         else
           && receipt.status == Quarantined && u.resources == s.resources && u.payloads == s.payloads
           && u.conflicts == s.conflicts + [Conflict(s.next, org, id, s.resources[id].digest, value)]
           && u.next == s.next + 1
  {
    SoundHasFacts(e, c, id, algorithm, value);
  }
}
