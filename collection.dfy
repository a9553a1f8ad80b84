/** The document lookup both stores rely on. */
module Collection {
  import opened Wrappers

  /**
   * `find_one(filter)`: the position of the first document, in stored order,
   * that the filter matches, or None when no document matches.
   */
  function FindOne<T>(docs: seq<T>, matches: T -> bool): (r: Option<nat>)
    ensures r.Some? ==> r.value < |docs| && matches(docs[r.value])
    ensures r.Some? ==> forall k :: 0 <= k < r.value ==> !matches(docs[k])
    ensures r.None? <==> forall k :: 0 <= k < |docs| ==> !matches(docs[k])
  {
    if |docs| == 0 then None
    else if matches(docs[0]) then Some(0)
    else match FindOne(docs[1..], matches)
      case None => None
      case Some(k) => Some(k + 1)
  }

  /** Appending a document that the filter matches makes it the answer when nothing earlier matched. */
  lemma {:induction false} FindOneAppended<T>(docs: seq<T>, d: T, matches: T -> bool)
    requires FindOne(docs, matches).None? && matches(d)
    ensures FindOne(docs + [d], matches) == Some(|docs|)
  {
    var r := FindOne(docs + [d], matches);
    assert (docs + [d])[|docs|] == d;
    assert forall k :: 0 <= k < |docs| ==> (docs + [d])[k] == docs[k];
  }
}
