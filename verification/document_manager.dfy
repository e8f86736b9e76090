/**
  The in-memory document store: a map from id to Document, with upsert (Save),
  multi-criteria filtering (Search) and point lookup (FindById).
*/
module Manager {
  import opened Wrappers
  import opened Documents
  import opened Matchers

  type Storage = map<string, Document>

  /**
    The store's invariant: every key is non-empty and holds a document whose
    id is that key and whose created timestamp is present.
  */
  ghost predicate Consistent(s: Storage) {
    forall k :: k in s ==> k != "" && s[k].id == Some(k) && s[k].created.Some?
  }

  /** The stored documents that satisfy every criterion of r. */
  ghost function Matching(s: Storage, r: SearchRequest): set<Document> {
    set k | k in s && MatchesAll(s[k], r) :: s[k]
  }

  /** The keys whose documents satisfy every criterion of r. */
  ghost function MatchingKeys(s: Storage, r: SearchRequest): set<string> {
    set k | k in s && MatchesAll(s[k], r)
  }

  /**
    The state of a scan over the keys of s that has visited every key outside
    pending: result holds, once each, the documents of the visited keys in hits.
  */
  ghost predicate Collected(s: Storage, hits: set<string>, pending: set<string>, result: seq<Document>) {
    && pending <= s.Keys
    && hits <= s.Keys
    && (forall i :: 0 <= i < |result| ==>
          result[i].id.Some? && result[i].id.value in hits - pending && s[result[i].id.value] == result[i])
    && (forall k :: k in hits - pending ==> s[k] in result)
    && (forall i, j :: 0 <= i < j < |result| ==> result[i].id != result[j].id)
    && |result| == |hits - pending|
  }

  /** Visiting one pending key k keeps the scan state, appending s[k] exactly when k is a hit. */
  lemma CollectStep(s: Storage, hits: set<string>, pending: set<string>, result: seq<Document>,
                    k: string, keep: bool)
    requires Consistent(s)
    requires Collected(s, hits, pending, result)
    requires k in pending
    requires keep <==> k in hits
    ensures Collected(s, hits, pending - {k}, if keep then result + [s[k]] else result)
  {
    var visited := hits - pending;
    if keep {
      assert hits - (pending - {k}) == visited + {k};
      assert k !in visited;
      var result' := result + [s[k]];
      forall i, j | 0 <= i < j < |result'| ensures result'[i].id != result'[j].id {
        if j == |result| {
          assert result'[i].id.value in visited;
        }
      }
    } else {
      assert hits - (pending - {k}) == visited;
    }
  }

  /** The five fields of a search request, one per criterion. */
  datatype Criterion = Title | Content | AuthorId | From | To

  /** The request that keeps only criterion c of r. */
  function OnlyCriterion(r: SearchRequest, c: Criterion): SearchRequest {
    match c
    case Title => EMPTY_REQUEST.(titlePrefixes := r.titlePrefixes)
    case Content => EMPTY_REQUEST.(containsContents := r.containsContents)
    case AuthorId => EMPTY_REQUEST.(authorIds := r.authorIds)
    case From => EMPTY_REQUEST.(createdFrom := r.createdFrom)
    case To => EMPTY_REQUEST.(createdTo := r.createdTo)
  }

  /** A request with every criterion absent returns every stored document. */
  lemma EmptyRequestMatchesEverything(s: Storage)
    ensures Matching(s, EMPTY_REQUEST) == s.Values
  {
  }

  /** Search is conjunctive: its result is the intersection of the five single-criterion searches. */
  lemma SearchIsConjunctive(s: Storage, r: SearchRequest)
    ensures Matching(s, r) == Matching(s, OnlyCriterion(r, Title)) * Matching(s, OnlyCriterion(r, Content))
                              * Matching(s, OnlyCriterion(r, AuthorId)) * Matching(s, OnlyCriterion(r, From))
                              * Matching(s, OnlyCriterion(r, To))
  {
  }

  /** Inclusive bounds with createdFrom > createdTo leave nothing to return. */
  lemma InvertedRangeMatchesNothing(s: Storage, r: SearchRequest)
    requires r.createdFrom.Some? && r.createdTo.Some? && r.createdFrom.value > r.createdTo.value
    ensures Matching(s, r) == {}
  {
  }

  /**
    What a search sees after an upsert of p under key k: the document that k
    held before is gone (no other key held it, by the invariant), and p is
    there exactly when it matches.
  */
  lemma SearchAfterUpsert(s: Storage, k: string, p: Document, r: SearchRequest)
    requires Consistent(s)
    requires p.id == Some(k)
    ensures Matching(s[k := p], r)
            == (Matching(s, r) - (if k in s then {s[k]} else {}))
               + (if MatchesAll(p, r) then {p} else {})
  {
    var after := s[k := p];
    var expected := (Matching(s, r) - (if k in s then {s[k]} else {}))
                    + (if MatchesAll(p, r) then {p} else {});
    forall d | d in Matching(after, r) ensures d in expected {
      var j :| j in after && after[j] == d && MatchesAll(d, r);
      if j != k {
        assert s[j].id == Some(j);
      }
    }
    forall d | d in expected ensures d in Matching(after, r) {
      if d != p {
        var j :| j in s && s[j] == d && MatchesAll(d, r);
        assert j != k;
        assert after[j] == d;
      } else {
        assert after[k] == d;
      }
    }
  }

  /**
    The repository. Documents are immutable values here: Save returns the
    back-filled copy it stored, where the Java code updates the caller's
    object in place and stores that object.
  */
  class DocumentManager {
    var storage: Storage

    ghost predicate Valid()
      reads this
    {
      Consistent(storage)
    }

    constructor ()
      ensures Valid() && storage == map[]
    {
      storage := map[];
    }

    /**
      Upsert. A null or empty id is replaced by freshId (the generated UUID),
      a null created by now (the clock reading); the document is then written
      under its id and the stored value is returned.
    */
    method Save(document: Document, freshId: string, now: Instant) returns (saved: Document)
      requires Valid()
      requires freshId != ""
      modifies this
      ensures Valid()
      ensures !IdMissing(document) ==> saved.id == document.id
      ensures IdMissing(document) ==> saved.id == Some(freshId)
      ensures document.created.Some? ==> saved.created == document.created
      ensures document.created.None? ==> saved.created == Some(now)
      ensures saved.title == document.title && saved.content == document.content
      ensures saved.author == document.author
      ensures saved.id.Some? && storage == old(storage)[saved.id.value := saved]
      ensures forall k :: FindById(k) == if saved.id == Some(k) then Some(saved) else old(FindById(k))
    {
      var doc := document;
      var id := doc.id;
      if id.None? || id.value == "" {
        id := Some(freshId);
        doc := doc.(id := id);
      }
      if doc.created.None? {
        doc := doc.(created := Some(now));
      }
      storage := storage[id.value := doc];
      saved := storage[id.value];
    }

    /** Every stored document that satisfies all five criteria, each exactly once. */
    method Search(request: SearchRequest) returns (result: seq<Document>)
      requires Valid()
      ensures forall d :: d in result <==> d in Matching(storage, request)
      ensures forall i, j :: 0 <= i < j < |result| ==> result[i].id != result[j].id
      ensures |result| == |MatchingKeys(storage, request)|
    {
      ghost var hits := MatchingKeys(storage, request);
      result := [];
      var pending := storage.Keys;
      while pending != {}
        invariant Collected(storage, hits, pending, result)
        decreases pending
      {
        var k :| k in pending;
        var doc := storage[k];
        var keep := MatchesAll(doc, request);
        CollectStep(storage, hits, pending, result, k, keep);
        if keep {
          result := result + [doc];
        }
        pending := pending - {k};
      }
      assert hits - pending == hits;
      forall d | d in Matching(storage, request) ensures d in result {
        var k :| k in storage && storage[k] == d && MatchesAll(d, request);
        assert k in hits;
      }
      forall d | d in result ensures d in Matching(storage, request) {
        var i :| 0 <= i < |result| && result[i] == d;
        assert result[i].id.value in hits;
      }
    }

    /** The stored document under id, or None when id is not a key. */
    function FindById(id: string): (found: Option<Document>)
      reads this
      requires Valid()
      ensures found.Some? <==> id in storage
      ensures found.Some? ==> found.value == storage[id]
      ensures found.Some? ==> found.value.id == Some(id) && found.value.created.Some?
    {
      if id in storage then Some(storage[id]) else None
    }
  }
}
