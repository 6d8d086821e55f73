/**
 * The certificate records stored under each user, the comparison that
 * get_single_document applies to them, and the first-match search that
 * specifies its scan.
 */
module Certificates {
  import opened Wrappers
  import opened Normalize

  /** The provenance tag add_certificate writes on every record. */
  const UserUpload: string := "user_upload"

  /** A stored certificate.  The optional fields are the ones a JSON body may
      leave null (or, for the identifier, leave out). */
  datatype Cert = Cert(
    certType: Option<string>,
    certName: Option<string>,
    holderName: Option<string>,
    identifier: Option<string>,
    ipfsUrl: Option<string>,
    source: string,
    uploadedAt: string)

  /** A record of the certificates sub-collection with its store-assigned id. */
  datatype Doc = Doc(id: string, cert: Cert)

  /** The ids of `docs`, in stream order. */
  function Ids(docs: seq<Doc>): seq<string> {
    seq(|docs|, k requires 0 <= k < |docs| => docs[k].id)
  }

  /** No two records of one user share an id. */
  predicate UniqueIds(docs: seq<Doc>) {
    forall i, j :: 0 <= i < j < |docs| ==> docs[i].id != docs[j].id
  }

  /** The certificates of `phone` in stream order; an absent collection streams nothing. */
  function Owned(certs: map<string, seq<Doc>>, phone: string): seq<Doc> {
    if phone in certs then certs[phone] else []
  }

  /** A stored record matches a request already normalised to `reqType` and
      `reqIdent` when BOTH of its own normalised fields equal them; so only a
      request that is itself in normal form can be matched. */
  predicate Matches(c: Cert, reqType: string, reqIdent: string)
    ensures Matches(c, reqType, reqIdent) ==>
      NormType(reqType) == reqType && NormIdent(reqIdent) == reqIdent
  {
    NormTypeIdempotent(Text(c.certType));
    NormIdentIdempotent(Text(c.identifier));
    && NormType(Text(c.certType)) == reqType
    && NormIdent(Text(c.identifier)) == reqIdent
  }

  /** The test get_single_document applies to each record, for a request
      whose type and identifier were normalised to `reqType` and `reqIdent`. */
  function RequestMatcher(reqType: string, reqIdent: string): Cert -> bool {
    c => Matches(c, reqType, reqIdent)
  }

  /** The position of the first record in stream order whose certificate
      satisfies `p`. */
  function FirstMatch(docs: seq<Doc>, p: Cert -> bool): (r: Option<nat>)
    ensures r.Some? ==> r.value < |docs| && p(docs[r.value].cert)
    ensures r.Some? ==> forall j :: 0 <= j < r.value ==> !p(docs[j].cert)
    ensures r.None? <==> forall j :: 0 <= j < |docs| ==> !p(docs[j].cert)
  {
    if docs == [] then None
    else if p(docs[0].cert) then Some(0)
    else match FirstMatch(docs[1..], p)
      case None => None
      case Some(k) => Some(k + 1)
  }

  /** The certificate the scan returns: the first in stream order that
      satisfies `p`. */
  function Found(docs: seq<Doc>, p: Cert -> bool): Option<Cert> {
    match FirstMatch(docs, p)
    case None => None
    case Some(k) => if k < |docs| then Some(docs[k].cert) else None
  }

  /** `docs` with `d` placed at position `k` of the stream. */
  function Insert(docs: seq<Doc>, k: nat, d: Doc): seq<Doc>
    requires k <= |docs|
  {
    docs[..k] + [d] + docs[k..]
  }

  /** The least passing position is the one FirstMatch returns. */
  lemma FirstMatchAt(docs: seq<Doc>, p: Cert -> bool, i: nat)
    requires i < |docs| && p(docs[i].cert)
    requires forall j :: 0 <= j < i ==> !p(docs[j].cert)
    ensures FirstMatch(docs, p) == Some(i)
  {
  }

  /** A new record, wherever the store places it in the stream, can change
      the answer of a lookup only to itself, and only when it matches; a
      matching record placed first always wins, and one placed last never
      displaces an earlier answer. */
  lemma FirstMatchInsert(docs: seq<Doc>, k: nat, d: Doc, p: Cert -> bool)
    requires k <= |docs|
    ensures Found(Insert(docs, k, d), p) == Found(docs, p)
         || (p(d.cert) && Found(Insert(docs, k, d), p) == Some(d.cert))
    ensures !p(d.cert) ==> Found(Insert(docs, k, d), p) == Found(docs, p)
    ensures p(d.cert) ==> Found(Insert(docs, k, d), p).Some?
    ensures p(d.cert) && k == 0 ==> Found(Insert(docs, k, d), p) == Some(d.cert)
    ensures k == |docs| && Found(docs, p).Some? ==> Found(Insert(docs, k, d), p) == Found(docs, p)
  {
    var all := Insert(docs, k, d);
    assert |all| == |docs| + 1;
    assert forall j :: 0 <= j < k ==> all[j] == docs[j];
    assert all[k] == d;
    assert forall j :: k <= j < |docs| ==> all[j + 1] == docs[j];
    match FirstMatch(docs, p)
    case Some(i) =>
      if i < k {
        FirstMatchAt(all, p, i);
      } else if p(d.cert) {
        FirstMatchAt(all, p, k);
      } else {
        forall j | 0 <= j < i + 1
          ensures !p(all[j].cert)
        {
          if j > k {
            assert all[j] == docs[j - 1];
          }
        }
        FirstMatchAt(all, p, i + 1);
      }
    case None =>
      if p(d.cert) {
        FirstMatchAt(all, p, k);
      } else {
        forall j | 0 <= j < |all|
          ensures !p(all[j].cert)
        {
          if j > k {
            assert all[j] == docs[j - 1];
          }
        }
      }
  }

  /** Under one matching record, a second record is found instead only
      when it matches as well. */
  lemma SecondRecordFound(first: Doc, k: nat, d: Doc, p: Cert -> bool)
    requires k <= 1 && p(first.cert)
    ensures Found(Insert([first], k, d), p) == Some(first.cert)
         || (p(d.cert) && Found(Insert([first], k, d), p) == Some(d.cert))
    ensures !p(d.cert) ==> Found(Insert([first], k, d), p) == Some(first.cert)
  {
    FirstMatchAt([first], p, 0);
    FirstMatchInsert([first], k, d, p);
  }

  /** The longest id among `ids`. */
  function MaxLen(ids: seq<string>): (m: nat)
    ensures forall k :: 0 <= k < |ids| ==> |ids[k]| <= m
  {
    if ids == [] then 0
    else
      var rest := MaxLen(ids[1..]);
      if |ids[0]| > rest then |ids[0]| else rest
  }

  /** Stands in for the store's auto-id: an id that none of `ids` is. */
  function FreshId(ids: seq<string>): (r: string)
    ensures r !in ids
  {
    seq(MaxLen(ids) + 1, _ => 'x')
  }

  /** A record with a new id, wherever it is placed, keeps a user's ids
      unique. */
  lemma InsertFreshKeepsUnique(docs: seq<Doc>, k: nat, d: Doc)
    requires k <= |docs|
    requires UniqueIds(docs) && d.id !in Ids(docs)
    ensures UniqueIds(Insert(docs, k, d))
  {
    var all := Insert(docs, k, d);
    forall j | 0 <= j < |docs|
      ensures docs[j].id != d.id
    {
      assert Ids(docs)[j] == docs[j].id;
    }
    forall j | 0 <= j < |all|
      ensures all[j] == (if j < k then docs[j] else if j == k then d else docs[j - 1])
    {
    }
  }

  /** Placing a record in the stream adds exactly that record. */
  lemma InsertAddsOne(docs: seq<Doc>, k: nat, d: Doc)
    requires k <= |docs|
    ensures multiset(Insert(docs, k, d)) == multiset(docs) + multiset{d}
  {
    assert docs == docs[..k] + docs[k..];
  }

  /** The request's own formatting is irrelevant: padding and letter case in
      the type, and spaces in the identifier, select the same records. */
  lemma MatcherIgnoresRequestFormatting(c: Cert, p: string, t: string, q: string, a: string, b: string)
    requires AllSpace(p) && AllSpace(q)
    ensures RequestMatcher(NormType(p + t + q), NormIdent(a + " " + b))(c)
        == RequestMatcher(NormType(Lower(t)), NormIdent(a + b))(c)
  {
    NormTypeIgnoresCaseAndPadding(p, t, q);
    NormIdentIgnoresSpace(a, b);
  }

  /** The worked example: a request for type "PAN" and identifier "1234 5678"
      finds a record stored as "pan" / "12345678", and a record stored with
      identifier "1234567" is not a match. */
  lemma PanExample(name: Option<string>, holder: Option<string>, url: Option<string>, at: string)
    ensures Matches(Cert(Some("pan"), name, holder, Some("12345678"), url, UserUpload, at),
                    NormType("PAN"), NormIdent("1234 5678"))
    ensures !Matches(Cert(Some("pan"), name, holder, Some("1234567"), url, UserUpload, at),
                     NormType("PAN"), NormIdent("1234 5678"))
  {
    NormIdentExample();
    NormTypeExample();
    assert |NormIdent("1234567")| <= 7;
  }
}
