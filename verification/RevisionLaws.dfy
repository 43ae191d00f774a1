/** What a revision digest is taken over (`src/v2/contract.rs`): a text that reads as the revision and nothing else. */
module RevisionLaws {
  import opened Wrappers
  import opened Text
  import opened Canon
  import opened JsonReader
  import opened Binding

  /** An object of these three members, the content up to the order of its own. */
  ghost predicate SaysRevision(w: Json, contractId: string, number: nat, content: Json) {
    && w.Object? && |w.members| == 3
    && Entry("contract_id", String(contractId)) in w.members
    && Entry("revision", Number(Decimal(number))) in w.members
    && exists m :: m in w.members && m.key == "content" && Same(content, m.item)
  }

  /**
   The digest of a revision is the hash of a text that reads as its contract's id, its number
   and its content, whenever the content is a JSON value without fractions; else there is none.
   */
  lemma DigestCovers(sha256: string -> string, contractId: string, number: nat, content: Json) returns (text: string, w: Json)
    requires WellFormed(content)
    ensures if IntegersOnly(content) then
              RevisionDigest(sha256, contractId, number, content) == Success(sha256(text))
              && ReadValue(text) == Some((w, "")) && SaysRevision(w, contractId, number, content)
            else RevisionDigest(sha256, contractId, number, content).Failure?
  {
    hide Canonical, ReadValue, Same, Arranged, Decimal;
    RevisionCanonical(sha256, contractId, number, content);
    text, w := "", Null;
    if IntegersOnly(content) {
      var v := RevisionJson(contractId, number, content);
      RevisionForm(contractId, number, content);
      text := Canonical(v, "$").value;
      w := CanonicalReadsBack(v, "$");
      RevisionRead(contractId, number, content, w);
    }
  }

  lemma RevisionForm(contractId: string, number: nat, content: Json)
    requires WellFormed(content) && IntegersOnly(content)
    ensures WellFormed(RevisionJson(contractId, number, content)) && IntegersOnly(RevisionJson(contractId, number, content))
  {
    var ms := RevisionJson(contractId, number, content).members;
    assert ms[0].item == String(contractId) && ms[1].item == Number(Decimal(number)) && ms[2].item == content;
    assert |"contract_id"| == 11 && |"revision"| == 8 && |"content"| == 7;
    NumeralText(number);
    assert WellFormed(ms[0].item) && WellFormed(ms[1].item) && IntegersOnly(ms[0].item) && IntegersOnly(ms[1].item);
  }

  lemma NumeralText(number: nat)
    ensures WellFormed(Number(Decimal(number))) && IntegersOnly(Number(Decimal(number)))
  {
    hide Decimal;
    var text := Decimal(number);
    forall i | 0 <= i < |text| ensures IsDigit(text[i]) {
      assert text[i] in text;
    }
  }

  lemma RevisionRead(contractId: string, number: nat, content: Json, w: Json)
    requires Same(RevisionJson(contractId, number, content), w)
    ensures SaysRevision(w, contractId, number, content)
  {
    hide Decimal;
    var ms := RevisionJson(contractId, number, content).members;
    assert w.Object? && |w.members| == 3;
    assert ms[0] == Entry("contract_id", String(contractId)) && ms[1] == Entry("revision", Number(Decimal(number)));
    assert ms[2] == Entry("content", content);
    LeafFound(w.members, "contract_id", String(contractId));
    LeafFound(w.members, "revision", Number(Decimal(number)));
    assert HasMember(w.members, "content", content);
    var j :| 0 <= j < |w.members| && "content" == w.members[j].key && Same(content, w.members[j].item);
    assert w.members[j] in w.members;
  }

  lemma LeafFound(ns: seq<Entry<Json>>, key: string, item: Json)
    requires HasMember(ns, key, item) && (item.String? || item.Number?)
    ensures Entry(key, item) in ns
  {
    var j :| 0 <= j < |ns| && key == ns[j].key && Same(item, ns[j].item);
    assert ns[j] == Entry(key, item);
  }
}
