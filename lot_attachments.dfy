/**
 * The attachment bookkeeping of a lot (lots/routes.js): removing a
 * document by its storage key, and recording the thumbnail of a media entry.
 */
module LotAttachments {
  import opened Wrappers
  import J = Json

  // ---------------------------------------------------------------------
  // Removing a document

  /** An entry of `documentKeys`: the storage key and the public location. */
  datatype DocumentKey = DocumentKey(key: string, location: string)

  /** An entry of `documents`: its storage key and what the document adder recorded. */
  datatype Document = Document(key: string, details: J.Value)

  /** The document lists of a lot. */
  datatype LotDocuments = LotDocuments(documentKeys: seq<DocumentKey>, documents: seq<Document>)

  /** `xs.filter(x => keyOf(x) !== key)` */
  function WithoutKey<T(!new)>(xs: seq<T>, keyOf: T -> string, key: string): (r: seq<T>)
    ensures forall x :: x in r <==> x in xs && keyOf(x) != key
    ensures |r| == |xs| - Occurrences(xs, keyOf, key)
  {
    if xs == [] then []
    else
      var rest := WithoutKey(xs[1..], keyOf, key);
      assert forall x :: x in xs <==> x == xs[0] || x in xs[1..];
      if keyOf(xs[0]) != key then [xs[0]] + rest else rest
  }

  /** How many entries of `xs` carry `key`. */
  function Occurrences<T>(xs: seq<T>, keyOf: T -> string, key: string): (n: nat)
    ensures n <= |xs|
  {
    if xs == [] then 0
    else Occurrences(xs[1..], keyOf, key) + (if keyOf(xs[0]) == key then 1 else 0)
  }

  /**
   * Deleting the document stored under `key`: both lists lose every entry
   * with that key and keep every other entry, in order.
   */
  function RemoveDocument(lot: LotDocuments, key: string): (r: LotDocuments)
    ensures forall d :: d in r.documentKeys <==> d in lot.documentKeys && d.key != key
    ensures forall d :: d in r.documents <==> d in lot.documents && d.key != key
    ensures |r.documentKeys| == |lot.documentKeys| - Occurrences(lot.documentKeys, (d: DocumentKey) => d.key, key)
    ensures |r.documents| == |lot.documents| - Occurrences(lot.documents, (d: Document) => d.key, key)
  {
    LotDocuments(WithoutKey(lot.documentKeys, (d: DocumentKey) => d.key, key),
                 WithoutKey(lot.documents, (d: Document) => d.key, key))
  }

  /** Filtering by a key is idempotent, and a key that is not there changes nothing. */
  lemma {:induction false} WithoutKeyIdempotent<T(!new)>(xs: seq<T>, keyOf: T -> string, key: string)
    ensures WithoutKey(WithoutKey(xs, keyOf, key), keyOf, key) == WithoutKey(xs, keyOf, key)
    ensures Occurrences(xs, keyOf, key) == 0 ==> WithoutKey(xs, keyOf, key) == xs
  {
    if xs != [] {
      WithoutKeyIdempotent(xs[1..], keyOf, key);
      var rest := WithoutKey(xs[1..], keyOf, key);
      if keyOf(xs[0]) != key {
        assert ([xs[0]] + rest)[1..] == rest;
      }
    }
  }

  /**
   * Filtering keeps order: it works entry by entry, keeping an entry exactly
   * when its key differs, and the kept entries of a concatenation are the
   * kept entries of the first part followed by those of the second.
   */
  lemma {:induction false} WithoutKeyAppend<T(!new)>(xs: seq<T>, ys: seq<T>, keyOf: T -> string, key: string)
    ensures WithoutKey(xs + ys, keyOf, key) == WithoutKey(xs, keyOf, key) + WithoutKey(ys, keyOf, key)
    ensures forall x :: WithoutKey([x], keyOf, key) == if keyOf(x) != key then [x] else []
  {
    if xs == [] {
      assert xs + ys == ys;
    } else {
      assert (xs + ys)[1..] == xs[1..] + ys;
      WithoutKeyAppend(xs[1..], ys, keyOf, key);
    }
    forall x
      ensures WithoutKey([x], keyOf, key) == if keyOf(x) != key then [x] else []
    {
      assert [x][1..] == [];
    }
  }

  /** Both lists of the lot side by side. */
  function Concat(a: LotDocuments, b: LotDocuments): LotDocuments {
    LotDocuments(a.documentKeys + b.documentKeys, a.documents + b.documents)
  }

  /**
   * Deleting a document keeps the order of what is left: the result for two
   * batches of entries is the result for the first followed by the result
   * for the second, and a single entry stays exactly when its key differs.
   */
  lemma RemoveDocumentInOrder(a: LotDocuments, b: LotDocuments, key: string)
    ensures RemoveDocument(Concat(a, b), key) == Concat(RemoveDocument(a, key), RemoveDocument(b, key))
    ensures forall k, d ::
              RemoveDocument(LotDocuments([k], [d]), key) ==
              LotDocuments(if k.key != key then [k] else [], if d.key != key then [d] else [])
  {
    WithoutKeyAppend(a.documentKeys, b.documentKeys, (d: DocumentKey) => d.key, key);
    WithoutKeyAppend(a.documents, b.documents, (d: Document) => d.key, key);
  }

  /** Removing the same document twice is the same as removing it once. */
  lemma RemoveDocumentTwice(lot: LotDocuments, key: string)
    ensures RemoveDocument(RemoveDocument(lot, key), key) == RemoveDocument(lot, key)
  {
    WithoutKeyIdempotent(lot.documentKeys, (d: DocumentKey) => d.key, key);
    WithoutKeyIdempotent(lot.documents, (d: Document) => d.key, key);
  }

  // ---------------------------------------------------------------------
  // Setting a thumbnail

  /** A media entry of a lot; `id` is its `_id` as a string. */
  datatype Media = Media(id: string, thumbnail: Option<string>, details: J.Value)

  /** `${endpoint}/${key}`: the public address of an uploaded thumbnail. */
  function ThumbnailUrl(endpoint: string, key: string): string {
    endpoint + "/" + key
  }

  /** The position of the first media entry with this id, if any. */
  function FindMedia(media: seq<Media>, id: string): (r: Option<nat>)
    ensures r.Some? ==> r.value < |media| && media[r.value].id == id
    ensures r.Some? ==> forall j :: 0 <= j < r.value ==> media[j].id != id
    ensures r.None? ==> forall j :: 0 <= j < |media| ==> media[j].id != id
  {
    if media == [] then None
    else if media[0].id == id then Some(0)
    else match FindMedia(media[1..], id)
      case None => None
      case Some(k) => Some(k + 1)
  }

  /** The media list after the thumbnail of the first entry with this id is set. */
  function WithThumbnail(media: seq<Media>, id: string, url: string): seq<Media> {
    match FindMedia(media, id)
    case None => media
    case Some(k) => media[k := media[k].(thumbnail := Some(url))]
  }

  /**
   * The thumbnail loop: the first entry whose id matches gets the new
   * thumbnail and is returned; nothing else changes; without a match the
   * list is untouched and nothing is returned.
   */
  method SetThumbnail(media: array<Media>, id: string, endpoint: string, key: string)
    returns (updated: Option<Media>)
    modifies media
    ensures media[..] == WithThumbnail(old(media[..]), id, ThumbnailUrl(endpoint, key))
    ensures updated.Some? <==> exists j :: 0 <= j < media.Length && old(media[j]).id == id
    ensures updated.Some? ==> updated.value in media[..] && updated.value.id == id
                              && updated.value.thumbnail == Some(ThumbnailUrl(endpoint, key))
    ensures FindMedia(old(media[..]), id).Some? ==>
              updated == Some(media[FindMedia(old(media[..]), id).value])
  {
    var url := ThumbnailUrl(endpoint, key);
    updated := None;
    for i := 0 to media.Length
      invariant media[..] == old(media[..])
      invariant forall j :: 0 <= j < i ==> media[j].id != id
    {
      if media[i].id == id {
        media[i] := media[i].(thumbnail := Some(url));
        updated := Some(media[i]);
        assert FindMedia(old(media[..]), id) == Some(i);
        return;
      }
    }
    assert FindMedia(old(media[..]), id).None?;
  }

  /**
   * Setting a thumbnail keeps the length and every id, touches at most the
   * first matching entry, and doing it twice with the same address is the
   * same as doing it once.
   */
  lemma WithThumbnailFrame(media: seq<Media>, id: string, url: string)
    ensures var r := WithThumbnail(media, id, url);
      && |r| == |media|
      && (forall j :: 0 <= j < |r| ==> r[j].id == media[j].id)
      && (forall j :: 0 <= j < |r| && Some(j) != FindMedia(media, id) ==> r[j] == media[j])
      && WithThumbnail(r, id, url) == r
  {
    var r := WithThumbnail(media, id, url);
    match FindMedia(media, id)
    case None =>
    case Some(k) =>
      assert FindMedia(r, id) == Some(k) by {
        FindMediaSameIds(media, r, id);
      }
  }

  /** Where the ids agree, so does the search. */
  lemma {:induction false} FindMediaSameIds(a: seq<Media>, b: seq<Media>, id: string)
    requires |a| == |b| && forall j :: 0 <= j < |a| ==> a[j].id == b[j].id
    ensures FindMedia(a, id) == FindMedia(b, id)
  {
    if a != [] {
      FindMediaSameIds(a[1..], b[1..], id);
    }
  }
}
