/** ItemRepository: the derived and JPQL item queries, each a filter of the
    items table in storage order. */
module ItemRepository {
  import opened Common
  import opened Text
  import opened Seqs
  import opened Entities

  /** `findAllByOwner`: the rows whose owner column is the user. */
  function FindAllByOwner(items: seq<Item>, ownerId: int): (r: seq<Item>)
    ensures Selects(items, r, (it: Item) => it.owner == Some(ownerId))
    ensures forall i :: 0 <= i < |r| ==> r[i].owner == Some(ownerId)
  {
    Filter(items, (it: Item) => it.owner == Some(ownerId))
  }

  /** The search condition: available, and the upper-cased name or
      description contains the upper-cased pattern. */
  predicate MatchesPattern(it: Item, pattern: string) {
    && it.available
    && (Contains(Upper(it.name), Upper(pattern)) || Contains(Upper(it.description), Upper(pattern)))
  }

  function FindItemsByPattern(items: seq<Item>, pattern: string): (r: seq<Item>)
    ensures Selects(items, r, it => MatchesPattern(it, pattern))
    ensures forall i :: 0 <= i < |r| ==> r[i].available
    ensures forall i :: 0 <= i < |r| ==>
              Contains(Lower(r[i].name), Lower(pattern)) || Contains(Lower(r[i].description), Lower(pattern))
  {
    var r := Filter(items, it => MatchesPattern(it, pattern));
    forall i | 0 <= i < |r|
      ensures Contains(Lower(r[i].name), Lower(pattern)) || Contains(Lower(r[i].description), Lower(pattern))
    {
      UpperAndLowerSearchAgree(r[i].name, pattern);
      UpperAndLowerSearchAgree(r[i].description, pattern);
    }
    r
  }

  /** An unavailable item is never a search result, however well it matches. */
  lemma UnavailableIsNeverFound(items: seq<Item>, pattern: string, it: Item)
    requires !it.available
    ensures it !in FindItemsByPattern(items, pattern)
  {
  }

  /** A stored, available item whose name contains the pattern verbatim is found. */
  lemma VerbatimNameIsFound(items: seq<Item>, pattern: string, it: Item)
    requires it in items && it.available && Contains(it.name, pattern)
    ensures it in FindItemsByPattern(items, pattern)
  {
    var i :| 0 <= i <= |it.name| - |pattern| && OccursAt(it.name, pattern, i);
    assert Upper(it.name)[i..i + |pattern|] == Upper(pattern) by {
      assert forall k :: 0 <= k < |pattern| ==> it.name[i + k] == pattern[k] by {
        forall k | 0 <= k < |pattern| ensures it.name[i + k] == pattern[k] {
          assert it.name[i..i + |pattern|][k] == pattern[k];
        }
      }
    }
    assert OccursAt(Upper(it.name), Upper(pattern), i);
    SelectsMembers(items, FindItemsByPattern(items, pattern), x => MatchesPattern(x, pattern));
  }

  /** `findAllByItemRequestId`: available rows answering one of the requests. */
  predicate AnswersOneOf(it: Item, requestIds: seq<int>) {
    it.available && it.request.Some? && it.request.value in requestIds
  }

  function FindAllByItemRequestId(items: seq<Item>, requestIds: seq<int>): (r: seq<Item>)
    ensures Selects(items, r, it => AnswersOneOf(it, requestIds))
    ensures forall i :: 0 <= i < |r| ==> r[i].available && r[i].request.Some? && r[i].request.value in requestIds
  {
    Filter(items, it => AnswersOneOf(it, requestIds))
  }
}
