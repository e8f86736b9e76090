/**
  The five search criteria of the document store, each a pure predicate over
  one document and one optional field of the request, and the String
  operations they rely on (startsWith, contains).
*/
module Matchers {
  import opened Wrappers
  import opened Documents

  /** Java's String.startsWith: prefix is the first |prefix| characters of s. */
  predicate StartsWith(s: string, prefix: string) {
    |prefix| <= |s| && s[..|prefix|] == prefix
  }

  /** sub occurs in s starting at index i. */
  predicate OccursAt(s: string, sub: string, i: int) {
    0 <= i <= |s| - |sub| && s[i..i + |sub|] == sub
  }

  /** Java's String.contains: sub occurs in s at some index. */
  predicate Contains(s: string, sub: string) {
    exists i :: 0 <= i <= |s| - |sub| && OccursAt(s, sub, i)
  }

  /** startsWith holds exactly when s is prefix followed by some rest. */
  lemma StartsWithIffConcat(s: string, prefix: string)
    ensures StartsWith(s, prefix) <==> exists rest :: s == prefix + rest
  {
    if StartsWith(s, prefix) {
      var rest := s[|prefix|..];
      assert s == prefix + rest;
    }
    if exists rest :: s == prefix + rest {
      var rest :| s == prefix + rest;
      assert s[..|prefix|] == prefix;
    }
  }

  /** contains holds exactly when s splits as before + sub + after. */
  lemma ContainsIffConcat(s: string, sub: string)
    ensures Contains(s, sub) <==> exists before, after :: s == before + sub + after
  {
    if Contains(s, sub) {
      var i :| 0 <= i <= |s| - |sub| && OccursAt(s, sub, i);
      var before, after := s[..i], s[i + |sub|..];
      assert s == before + sub + after;
    }
    if exists before, after :: s == before + sub + after {
      var before, after :| s == before + sub + after;
      var i := |before|;
      assert s[i..i + |sub|] == sub;
      assert OccursAt(s, sub, i);
    }
  }

  /** Some prefix in the list begins the title. */
  predicate AnyPrefix(title: string, prefixes: seq<string>) {
    exists p :: p in prefixes && StartsWith(title, p)
  }

  /** Some string in the list occurs inside the content. */
  predicate AnySubstring(content: string, subs: seq<string>) {
    exists sub :: sub in subs && Contains(content, sub)
  }

  /** A null or empty list switches its criterion off. */
  predicate Absent<T>(field: Option<seq<T>>) {
    field.None? || field.value == []
  }

  predicate MatchesTitlePrefixes(d: Document, titlePrefixes: Option<seq<string>>) {
    if Absent(titlePrefixes) then true
    else d.title.Some? && AnyPrefix(d.title.value, titlePrefixes.value)
  }

  predicate MatchesContents(d: Document, containsContents: Option<seq<string>>) {
    if Absent(containsContents) then true
    else d.content.Some? && AnySubstring(d.content.value, containsContents.value)
  }

  /** A present author whose (non-null) id is one of authorIds. */
  predicate MatchesAuthorIds(d: Document, authorIds: Option<seq<string>>) {
    if Absent(authorIds) then true
    else d.author.Some? && d.author.value.id.Some? && d.author.value.id.value in authorIds.value
  }

  /** created is present and not before createdFrom (Instant.isBefore is <). */
  predicate MatchesCreatedFrom(d: Document, createdFrom: Option<Instant>) {
    if createdFrom.None? then true
    else d.created.Some? && !(d.created.value < createdFrom.value)
  }

  /** created is present and not after createdTo (Instant.isAfter is >). */
  predicate MatchesCreatedTo(d: Document, createdTo: Option<Instant>) {
    if createdTo.None? then true
    else d.created.Some? && !(d.created.value > createdTo.value)
  }

  /** The chain of five filters applied by search. */
  predicate MatchesAll(d: Document, r: SearchRequest) {
    && MatchesTitlePrefixes(d, r.titlePrefixes)
    && MatchesContents(d, r.containsContents)
    && MatchesAuthorIds(d, r.authorIds)
    && MatchesCreatedFrom(d, r.createdFrom)
    && MatchesCreatedTo(d, r.createdTo)
  }

  /** With every criterion switched off, every document matches. */
  lemma AbsentCriteriaMatchEverything(d: Document, r: SearchRequest)
    requires Absent(r.titlePrefixes) && Absent(r.containsContents) && Absent(r.authorIds)
    requires r.createdFrom.None? && r.createdTo.None?
    ensures MatchesAll(d, r)
  {
  }

  /** An active criterion rejects a document whose field it tests is null. */
  lemma MissingFieldsFailActiveCriteria(d: Document, r: SearchRequest)
    ensures !Absent(r.titlePrefixes) && d.title.None? ==> !MatchesAll(d, r)
    ensures !Absent(r.containsContents) && d.content.None? ==> !MatchesAll(d, r)
    ensures !Absent(r.authorIds) && d.author.None? ==> !MatchesAll(d, r)
    ensures (r.createdFrom.Some? || r.createdTo.Some?) && d.created.None? ==> !MatchesAll(d, r)
  {
  }

  /** Both date bounds are inclusive: together they accept exactly from <= created <= to. */
  lemma DateBoundsInclusive(d: Document, from: Instant, to: Instant)
    ensures MatchesCreatedFrom(d, Some(from)) && MatchesCreatedTo(d, Some(to))
            <==> d.created.Some? && from <= d.created.value <= to
  {
  }

  /** The title criterion with a prefix list holds exactly for titles that split as p + rest. */
  lemma TitleCriterionByConcat(d: Document, prefixes: seq<string>)
    requires prefixes != []
    ensures MatchesTitlePrefixes(d, Some(prefixes))
            <==> d.title.Some? && exists p, rest :: p in prefixes && d.title.value == p + rest
  {
    if d.title.Some? {
      var t := d.title.value;
      forall p | p in prefixes
        ensures StartsWith(t, p) <==> exists rest :: t == p + rest
      {
        StartsWithIffConcat(t, p);
      }
    }
  }

  /**
    The author criterion depends only on which ids the list holds, not on
    their order or repetition, as with List.contains.
  */
  lemma AuthorCriterionIgnoresOrder(d: Document, ids: seq<string>, ids': seq<string>)
    requires (set x | x in ids) == (set x | x in ids')
    ensures MatchesAuthorIds(d, Some(ids)) == MatchesAuthorIds(d, Some(ids'))
  {
    var held, held' := set x | x in ids, set x | x in ids';
    if ids != [] {
      assert ids[0] in held;
      assert ids' != [];
    }
    if ids' != [] {
      assert ids'[0] in held';
      assert ids != [];
    }
    if d.author.Some? && d.author.value.id.Some? {
      var id := d.author.value.id.value;
      assert id in ids ==> id in held;
      assert id in ids' ==> id in held';
    }
  }

  /** With a non-empty id list, the author criterion is the OR of the criteria for each single id. */
  lemma AuthorCriterionIsAnyId(d: Document, ids: seq<string>)
    requires ids != []
    ensures MatchesAuthorIds(d, Some(ids)) <==> exists i :: 0 <= i < |ids| && MatchesAuthorIds(d, Some([ids[i]]))
  {
  }

  /** The content criterion with a substring list holds exactly for contents that split as before + sub + after. */
  lemma ContentCriterionByConcat(d: Document, subs: seq<string>)
    requires subs != []
    ensures MatchesContents(d, Some(subs))
            <==> d.content.Some? && exists sub, before, after :: sub in subs && d.content.value == before + sub + after
  {
    if d.content.Some? {
      var c := d.content.value;
      forall sub | sub in subs
        ensures Contains(c, sub) <==> exists before, after :: c == before + sub + after
      {
        ContainsIffConcat(c, sub);
      }
    }
  }
}
