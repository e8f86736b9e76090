/**
  The unit-test scenarios of the document store, replayed as client code,
  plus one (ResaveReplacesCreated) that has no unit test and illustrates how
  re-saving replaces the created timestamp. Each asserts what the store's
  contracts alone let a caller conclude.
*/
module Scenarios {
  import opened Wrappers
  import opened Documents
  import opened Matchers
  import opened Manager

  const AUTHOR_1 := Author(Some("author1"), Some("Denys Smel"))
  const AUTHOR_2 := Author(Some("author2"), Some("Denys Prog"))

  method SaveGeneratesIdAndCreated(freshId: string, now: Instant)
    requires freshId != ""
  {
    var manager := new DocumentManager();
    var document := Document(Some(""), Some("Title"), Some("Content"), Some(AUTHOR_1), None);
    var saved := manager.Save(document, freshId, now);
    assert saved.id.Some? && saved.id.value != "";
    assert saved.created.Some?;
  }

  method SaveUsesExistingId(freshId: string, now: Instant)
    requires freshId != ""
  {
    var manager := new DocumentManager();
    var document := Document(Some("doc-123"), Some("Title"), Some("Content"), Some(AUTHOR_1), Some(now));
    var saved := manager.Save(document, freshId, now);
    assert saved.id == Some("doc-123");
  }

  /** Re-saving an id with a null created replaces the stored timestamp: the check looks only at the incoming document. */
  method ResaveReplacesCreated(freshId: string, first: Instant, later: Instant)
    requires freshId != "" && first != later
  {
    var manager := new DocumentManager();
    var original := Document(Some("doc-1"), Some("Title"), Some("Content"), Some(AUTHOR_1), Some(first));
    var _ := manager.Save(original, freshId, first);
    var replacement := original.(created := None);
    var _ := manager.Save(replacement, freshId, later);
    assert manager.FindById("doc-1").value.created == Some(later);
  }

  method FindSavedDocument(freshId: string, now: Instant)
    requires freshId != "" && freshId != "non-existent"
  {
    var manager := new DocumentManager();
    var document := Document(Some(""), Some("Test Title"), Some("Test Content"), Some(AUTHOR_1), None);
    var saved := manager.Save(document, freshId, now);
    var retrieved := manager.FindById(saved.id.value);
    assert retrieved == Some(saved);
    var notFound := manager.FindById("non-existent");
    assert notFound == None;
  }

  method SearchByTitlePrefix(freshId: string, now: Instant)
    requires freshId != ""
  {
    var manager := new DocumentManager();
    var doc1 := Document(Some("1"), Some("Test Document"), Some("Some content"), Some(AUTHOR_1), Some(now));
    var doc2 := Document(Some("2"), Some("Another Document"), Some("Different content"), Some(AUTHOR_1), Some(now));
    var _ := manager.Save(doc1, freshId, now);
    var _ := manager.Save(doc2, freshId, now);
    var request := EMPTY_REQUEST.(titlePrefixes := Some(["Test"]));
    assert StartsWith("Test Document", "Test");
    assert !StartsWith("Another Document", "Test") by {
      assert "Another Document"[..4] != "Test" by { assert "Another Document"[0] == 'A'; }
    }
    assert MatchingKeys(manager.storage, request) == {"1"};
    var results := manager.Search(request);
    assert |results| == 1;
    assert results[0] in Matching(manager.storage, request);
    assert results[0].title == Some("Test Document");
  }

  /** Of the two contents in the content-search scenario, only the first contains "keyword". */
  lemma KeywordOccurrences()
    ensures Contains("This is a sample content with keyword", "keyword")
    ensures !Contains("Content without key", "keyword")
  {
    assert OccursAt("This is a sample content with keyword", "keyword", 30);
    var head := "Content without ";
    assert "Content without key" == head + "key";
    assert 'k' !in head;
    forall i | 0 <= i <= 12 ensures !OccursAt("Content without key", "keyword", i) {
      assert "Content without key"[i..i + 7][0] == head[i];
    }
  }

  method SearchByContent(freshId: string, now: Instant)
    requires freshId != ""
  {
    var manager := new DocumentManager();
    var doc1 := Document(Some("1"), Some("Doc One"), Some("This is a sample content with keyword"), Some(AUTHOR_1), Some(now));
    var doc2 := Document(Some("2"), Some("Doc Two"), Some("Content without key"), Some(AUTHOR_1), Some(now));
    var _ := manager.Save(doc1, freshId, now);
    var _ := manager.Save(doc2, freshId, now);
    var request := EMPTY_REQUEST.(containsContents := Some(["keyword"]));
    KeywordOccurrences();
    assert MatchingKeys(manager.storage, request) == {"1"};
    var results := manager.Search(request);
    assert |results| == 1;
    assert results[0] in Matching(manager.storage, request);
    assert results[0] == doc1;
  }

  method SearchByAuthor(freshId: string, now: Instant)
    requires freshId != ""
  {
    var manager := new DocumentManager();
    var doc1 := Document(Some("1"), Some("Doc One"), Some("Content One"), Some(AUTHOR_1), Some(now));
    var doc2 := Document(Some("2"), Some("Doc Two"), Some("Content Two"), Some(AUTHOR_2), Some(now));
    var _ := manager.Save(doc1, freshId, now);
    var _ := manager.Save(doc2, freshId, now);
    var request := EMPTY_REQUEST.(authorIds := Some(["author1"]));
    assert MatchingKeys(manager.storage, request) == {"1"};
    var results := manager.Search(request);
    assert |results| == 1;
    assert results[0] in Matching(manager.storage, request);
    assert results[0].author.value.id == Some("author1");
  }

  method SearchByCreated(freshId: string, now: Instant)
    requires freshId != ""
  {
    var manager := new DocumentManager();
    var past, future := now - 3600, now + 3600;
    var doc1 := Document(Some("1"), Some("Doc One"), Some("Content One"), Some(AUTHOR_1), Some(past));
    var doc2 := Document(Some("2"), Some("Doc Two"), Some("Content Two"), Some(AUTHOR_1), Some(now));
    var doc3 := Document(Some("3"), Some("Doc Three"), Some("Content Three"), Some(AUTHOR_1), Some(future));
    var _ := manager.Save(doc1, freshId, now);
    var _ := manager.Save(doc2, freshId, now);
    var _ := manager.Save(doc3, freshId, now);
    var request := EMPTY_REQUEST.(createdFrom := Some(now), createdTo := Some(future));
    assert MatchingKeys(manager.storage, request) == {"2", "3"};
    var results := manager.Search(request);
    assert |results| == 2;
  }
}
