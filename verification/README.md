# DocumentManager, modelled in Dafny

This project models `DocumentManager`, an in-memory document repository.
It keeps a map from document id to `Document` and offers three operations:

- `save` is an upsert. A null or empty id is replaced by a generated UUID. A null `created` is set to the current instant. The document is then stored under its id, and the stored value is returned.
- `search` returns every stored document that meets all five optional criteria of a `SearchRequest`: title prefixes, content substrings, author ids, and inclusive `createdFrom`/`createdTo` bounds.
- `findById` looks up one id and returns an optional document.

Layout:

- `wrappers.dfy` (module `Wrappers`): `Option`. It stands for Java's nullable fields and `java.util.Optional`.
- `documents.dfy` (module `Documents`): the `Author`, `Document` and `SearchRequest` value shapes. Every nullable field is an `Option`, and `Instant` is an integer timestamp.
- `matchers.dfy` (module `Matchers`): `String.startsWith` and `String.contains`, the five `matches*` criteria, and their conjunction `MatchesAll`, with lemmas about them.
- `document_manager.dfy` (module `Manager`): the class `DocumentManager` with its `storage` map field and its invariant `Consistent`. Every key is non-empty and holds a document whose id is that key and whose `created` is present. The module also has the specification sets `Matching`/`MatchingKeys` and lemmas relating search to save.
- `scenarios.dfy` (module `Scenarios`): the repository's unit-test scenarios as client methods, plus `ResaveReplacesCreated`, which has no unit test and shows how re-saving replaces the `created` timestamp. Each asserts what the contracts above let a caller conclude.

The generated UUID and the clock are nondeterministic, so `Save` takes them as parameters `freshId` and `now`. The order of `HashMap` iteration is unspecified. `Search` therefore visits the keys in an arbitrary order (`:|`), and its contract speaks only of membership, distinctness and count.

## Model

| member | source | states |
|---|---|---|
| `Manager.DocumentManager.constructor` | src/main/java/com/gmail/deniska1406sme/DocumentManager.java:21 | a new manager has empty storage and satisfies the store invariant |
| `Manager.DocumentManager.Save` | src/main/java/com/gmail/deniska1406sme/DocumentManager.java:30-45 | the result has three properties. (1) A present, non-empty id is kept; a null or empty id becomes `freshId`. (2) A present `created` is kept; a null one becomes `now`. (3) Title, content and author are unchanged. Storage afterwards is the old storage with just the result written under its id. Every other key's lookup is unchanged, and the store invariant is preserved |
| `Manager.DocumentManager.Search` | src/main/java/com/gmail/deniska1406sme/DocumentManager.java:53-61 | a document is in the result iff it is stored and meets all five criteria. No two results share an id. The result size equals the number of stored keys whose document matches. Storage is not changed |
| `Manager.DocumentManager.FindById` | src/main/java/com/gmail/deniska1406sme/DocumentManager.java:69-72 | returns Some exactly when the id is a key, and then the stored document. That document's id is the key looked up, and its `created` is present |
| `Manager.CollectStep` | src/main/java/com/gmail/deniska1406sme/DocumentManager.java:54-60 | visiting one more key of the map keeps the scan's invariant: the matching documents of visited keys are collected once each, and the count stays equal |
| `Manager.EmptyRequestMatchesEverything` | src/main/java/com/gmail/deniska1406sme/DocumentManager.java:53-61 | a request with every field absent selects exactly the stored documents |
| `Manager.SearchIsConjunctive` | src/main/java/com/gmail/deniska1406sme/DocumentManager.java:55-59 | the search set equals the intersection of the five single-criterion search sets |
| `Manager.InvertedRangeMatchesNothing` | src/main/java/com/gmail/deniska1406sme/DocumentManager.java:124-136 | with `createdFrom` later than `createdTo`, nothing is selected |
| `Manager.SearchAfterUpsert` | src/main/java/com/gmail/deniska1406sme/DocumentManager.java:42-61 | after writing p under its own id k, the search set loses the document k held before (no other key held it) and gains p exactly when p matches |
| `Matchers.StartsWithIffConcat` | src/main/java/com/gmail/deniska1406sme/DocumentManager.java:106 | `startsWith(prefix)` holds iff the string is `prefix + rest` for some rest |
| `Matchers.ContainsIffConcat` | src/main/java/com/gmail/deniska1406sme/DocumentManager.java:114 | `contains(sub)` holds iff the string is `before + sub + after` for some before and after |
| `Matchers.TitleCriterionByConcat` | src/main/java/com/gmail/deniska1406sme/DocumentManager.java:101-107 | with a non-empty prefix list, a document matches iff its title is present and begins with one of the prefixes |
| `Matchers.AuthorCriterionIgnoresOrder` | src/main/java/com/gmail/deniska1406sme/DocumentManager.java:117-122 | two id lists holding the same ids, in any order and with any repetition, give the same verdict for every document, as `List.contains` does |
| `Matchers.AuthorCriterionIsAnyId` | src/main/java/com/gmail/deniska1406sme/DocumentManager.java:117-122 | with a non-empty id list, a document matches iff it matches the single-id list of some entry (OR across the list) |
| `Matchers.ContentCriterionByConcat` | src/main/java/com/gmail/deniska1406sme/DocumentManager.java:109-115 | with a non-empty substring list, a document matches iff its content is present and has one of the substrings inside it |
| `Matchers.AbsentCriteriaMatchEverything` | src/main/java/com/gmail/deniska1406sme/DocumentManager.java:101-136 | null or empty lists and null bounds make every criterion true, so every document matches |
| `Matchers.MissingFieldsFailActiveCriteria` | src/main/java/com/gmail/deniska1406sme/DocumentManager.java:101-136 | when a criterion is active, a document whose tested field (title, content, author, `created`) is null fails the search |
| `Matchers.DateBoundsInclusive` | src/main/java/com/gmail/deniska1406sme/DocumentManager.java:124-136 | the two date criteria together accept exactly a present `created` with `from <= created <= to`, so both ends are inclusive |
| `Scenarios.KeywordOccurrences` | src/test/java/DocumentManagerTest.java:135-160 | of the two contents in the content-search test, only the first contains "keyword" |

## Left out

- Generating ids: `UUID.randomUUID()` becomes the parameter `freshId`, which is required to be non-empty. The source never checks a generated id against existing keys, so `Save` does not claim that `freshId` is unused. A generated id that equals an existing key overwrites that entry, as it would in the source.
- The clock: `Instant.now()` becomes the parameter `now`. An `Instant` is an unbounded integer count of seconds on one time line; its nanosecond part is not modelled.
- In-place mutation and aliasing: the source sets `id` and `created` on the caller's object and stores that same object. A later change by the caller would therefore show in storage. Here documents are immutable values, and `Save` returns the back-filled copy it stored.
- Iteration order: `search` returns documents in `HashMap` order. The model leaves the order unspecified and states membership, distinct ids and count.
- Null elements inside request lists: `startsWith(null)` and `contains(null)` throw in Java, and `authorIds.contains(null)` depends on the list implementation. Request lists here hold only non-null strings, so an author with a null id never matches.
- Lombok-generated builders, getters, setters, `equals` and `toString` are not modelled; the value shapes are plain datatype constructors.
- Concurrency and performance are excluded by the source itself.
- `created` is not immutable across saves. Re-saving an existing id with a document whose `created` is null stores `now` in place of the earlier timestamp, because the source checks only the incoming object. `Scenarios.ResaveReplacesCreated` shows this. A stronger reading, that `created` is never overwritten, does not describe the code and is not what `Save` states.
- Null arguments: the document, the request and the id passed to the three operations are never null here. In Java, `save(null)` throws a NullPointerException when it reads the id. `search(null)` throws inside the first filter, but only when storage holds at least one document; on empty storage it returns an empty list. `findById(null)` returns an empty Optional.
- Java strings: a Java `String` is a sequence of UTF-16 code units and may hold unpaired surrogates, so `startsWith` and `contains` can match half of a surrogate pair. Here a `string` is a sequence of Unicode scalar values, and that case cannot be expressed.
- `Manager.DocumentManager.Search`: requires the store invariant (`Valid()`), which the constructor and `Save` always establish. The Java stream works on any map; the invariant is what makes the results' ids distinct, so that each matching key contributes exactly one result.
- `Manager.DocumentManager.FindById`: requires the store invariant (`Valid()`), which the constructor and `Save` always establish. The Java lookup works on any map; the invariant is used only to add the facts about the returned document's id and `created`.
