/**
 * The corpus request handler: how `GET /corpus` turns its arguments into the
 * filter, limit and sort order it hands to the document store, and how
 * `PUT /corpus` and `DELETE /corpus` decide their status and their effect
 * on the store.
 *
 * Every request argument is an `Option<string>`: `None` when the request does
 * not carry it, `Some("")` when it carries it empty. The handler tests its
 * arguments with Python truthiness, which tells these two apart from a
 * non-empty value but not from each other, except where the value itself is
 * stored (the tags written by a retag).
 */
module Corpus {
  import opened Wrappers
  import opened Text
  import opened Numbers

  /** The HTTP status a request ends with, and the message raised with it. */
  datatype Status = Status(code: int, message: Option<string>)

  /** Python truthiness of an argument: present and not the empty string. */
  predicate Truthy(arg: Option<string>) { arg.Some? && arg.value != "" }

  /** The result count used when the request gives no `limit`. */
  const DefaultLimit: int := 10

  /** pymongo's DESCENDING sort direction. */
  const Descending: int := -1

  /** The one sort key of a list request: most recently modified first. */
  const ListSort: seq<(string, int)> := [("last_modified", Descending)]

  /** A match predicate on one field of a stored document. */
  datatype Predicate =
    | AllOf(items: seq<string>)     // { '$all': items }: the field holds every item
    | NotEqual(items: seq<string>)  // { '$ne': items }
    | Equals(items: seq<string>)    // items itself: the field is exactly this list

  /** The filter document of a list request: `stemmed_keywords` is optional, `tags` always set. */
  datatype Query = Query(stemmedKeywords: Option<Predicate>, tags: Predicate)

  /** The arguments of the store's `find` call. */
  datatype FindCall = FindCall(query: Query, limit: int, sort: seq<(string, int)>)

  /**
   * `int(self.get_argument('limit', 10))`: 10 when absent, the parsed integer
   * when it parses, and status 400 (with no message) when it does not.
   */
  function ParseLimit(arg: Option<string>): (r: Result<int, Status>)
    ensures r.Failure? <==> arg.Some? && ParseInt(arg.value).None?
    ensures r.Failure? ==> r.error == Status(400, None)
    ensures r.Success? && arg.None? ==> r.value == DefaultLimit
    ensures r.Success? && arg.Some? ==> ParseInt(arg.value) == Some(r.value)
  {
    match arg
    case None => Success(DefaultLimit)
    case Some(s) =>
      match ParseInt(s)
      case None => Failure(Status(400, None))
      case Some(n) => Success(n)
  }

  /** Any integer written out in decimal is accepted as the limit, unchanged. */
  lemma LimitRoundTrip(n: int)
    ensures ParseLimit(Some(Show(n))) == Success(n)
  {
    ParseShow(n);
  }

  /** `map(lambda w: ClassificationObject.stem(w), words)`. */
  function StemAll(words: seq<string>, stem: string -> string): (r: seq<string>)
    ensures |r| == |words|
    ensures forall i :: 0 <= i < |words| ==> r[i] == stem(words[i])
  {
    seq(|words|, i requires 0 <= i < |words| => stem(words[i]))
  }

  /**
   * The `stemmed_keywords` part of the filter: present exactly when the
   * `keywords` argument is truthy, and then "all of" the comma-separated
   * words, each lower-cased and then stemmed, in their order.
   */
  function KeywordFilter(keywords: Option<string>, stem: string -> string): (p: Option<Predicate>)
    ensures p.Some? <==> Truthy(keywords)
    ensures p.Some? ==>
              && p.value.AllOf?
              && |p.value.items| == |Split(keywords.value)|
              && forall i :: 0 <= i < |Split(keywords.value)| ==>
                   p.value.items[i] == stem(Lower(Split(keywords.value)[i]))
  {
    if Truthy(keywords) then Some(AllOf(StemAll(ParseList(keywords.value), stem))) else None
  }

  /**
   * The `tags` part of the filter, always present: a truthy `tags` argument
   * gives "all of" its lower-cased items whatever `tagged` says; otherwise a
   * truthy `tagged` (any non-empty string, "false" and "0" included) selects
   * documents whose tags are not the empty list, and anything else selects
   * documents whose tags are exactly the empty list.
   */
  function TagFilter(tags: Option<string>, tagged: Option<string>): (p: Predicate)
    ensures Truthy(tags) ==> p == AllOf(ParseList(tags.value)) && Join(p.items) == Lower(tags.value)
    ensures !Truthy(tags) && Truthy(tagged) ==> p == NotEqual([])
    ensures !Truthy(tags) && !Truthy(tagged) ==> p == Equals([])
  {
    if Truthy(tags) then
      ParseListMeaning(tags.value);
      AllOf(ParseList(tags.value))
    else if Truthy(tagged) then NotEqual([])
    else Equals([])
  }

  /**
   * The whole filter document of a list request: a keyword part exactly when
   * `keywords` is truthy, and a tag part that is "all of" the listed tags, "not
   * the empty list" or "the empty list", chosen by `tags` first and `tagged`
   * second.
   */
  function BuildQuery(keywords: Option<string>, tags: Option<string>, tagged: Option<string>,
                      stem: string -> string): (q: Query)
    ensures q.stemmedKeywords.Some? <==> Truthy(keywords)
    ensures q.stemmedKeywords.Some? ==>
              && q.stemmedKeywords.value.AllOf?
              && |q.stemmedKeywords.value.items| == |Split(keywords.value)|
              && forall i :: 0 <= i < |Split(keywords.value)| ==>
                   q.stemmedKeywords.value.items[i] == stem(Lower(Split(keywords.value)[i]))
    ensures q.tags.AllOf? <==> Truthy(tags)
    ensures q.tags.AllOf? ==> q.tags.items == Split(Lower(tags.value)) && Join(q.tags.items) == Lower(tags.value)
    ensures q.tags.NotEqual? <==> !Truthy(tags) && Truthy(tagged)
    ensures q.tags.Equals? <==> !Truthy(tags) && !Truthy(tagged)
    ensures !q.tags.AllOf? ==> q.tags.items == []
  {
    var q := Query(KeywordFilter(keywords, stem), TagFilter(tags, tagged));
    if Truthy(tags) then
      ParseListMeaning(tags.value);
      q
    else q
  }

  /**
   * `CorpusHandler.get` up to the store call: a bad `limit` stops the request
   * with 400 before any query is run; otherwise `find` gets the filter, the
   * parsed limit and the single `last_modified` descending sort key.
   */
  function ListRequest(limit: Option<string>, keywords: Option<string>, tags: Option<string>,
                       tagged: Option<string>, stem: string -> string): (r: Result<FindCall, Status>)
    ensures r.Failure? <==> limit.Some? && ParseInt(limit.value).None?
    ensures r.Failure? ==> r.error == Status(400, None)
    ensures r.Success? ==> r.value.sort == [("last_modified", -1)]
    ensures r.Success? && limit.None? ==> r.value.limit == 10
    ensures r.Success? && limit.Some? ==> ParseInt(limit.value) == Some(r.value.limit)
    ensures r.Success? ==> r.value.query == Query(KeywordFilter(keywords, stem), TagFilter(tags, tagged))
  {
    match ParseLimit(limit)
    case Failure(e) => Failure(e)
    case Success(n) => Success(FindCall(BuildQuery(keywords, tags, tagged, stem), n, ListSort))
  }

  /**
   * The keyword filter and the tag filter do not exclude each other: each
   * depends only on its own arguments, and with both arguments given the
   * query carries both.
   */
  lemma FiltersAreIndependent(keywords: Option<string>, tags: Option<string>, tagged: Option<string>,
                              otherKeywords: Option<string>, otherTags: Option<string>,
                              otherTagged: Option<string>, stem: string -> string)
    ensures BuildQuery(keywords, tags, tagged, stem).stemmedKeywords
         == BuildQuery(keywords, otherTags, otherTagged, stem).stemmedKeywords
    ensures BuildQuery(keywords, tags, tagged, stem).tags
         == BuildQuery(otherKeywords, tags, tagged, stem).tags
    ensures Truthy(keywords) && Truthy(tags) ==>
              && BuildQuery(keywords, tags, tagged, stem).stemmedKeywords.Some?
              && BuildQuery(keywords, tags, tagged, stem).tags.AllOf?
  {
  }

  /** A truthy `tags` argument makes `tagged` irrelevant. */
  lemma TagsOverrideTagged(tags: Option<string>, tagged: Option<string>, otherTagged: Option<string>)
    requires Truthy(tags)
    ensures TagFilter(tags, tagged) == TagFilter(tags, otherTagged)
  {
  }

  /**
   * `tagged` is read by string truthiness: "false" and "0" still select the
   * tagged documents, and only an absent or empty `tagged` gives the default
   * view of untagged documents.
   */
  lemma TaggedIsTruthiness(tagged: Option<string>)
    ensures TagFilter(None, Some("false")) == NotEqual([])
    ensures TagFilter(Some(""), Some("0")) == NotEqual([])
    ensures TagFilter(None, tagged) == Equals([]) <==> tagged == None || tagged == Some("")
  {
  }

  /**
   * A `tags` argument without a comma is one tag: the filter asks for exactly
   * its lower case, whatever `tagged` says.
   */
  lemma SingleTag(tag: string, tagged: Option<string>)
    requires tag != "" && ',' !in tag
    ensures TagFilter(Some(tag), tagged) == AllOf([Lower(tag)])
  {
    SplitCommaFree(tag);
  }

  /** The `tags` attribute of a stored document: `None`, a bare string, or a list of tags. */
  datatype TagsValue = Null | Raw(text: string) | List(items: seq<string>)

  /** A stored classification object, as far as this handler sees it. */
  datatype Document = Document(tags: TagsValue, stemmedKeywords: seq<string>, lastModified: int)

  /**
   * The value a retag writes: `None` for an absent `tags` argument, the raw
   * empty string for an empty one, and the parsed lower-case list otherwise.
   */
  function WrittenTags(tags: Option<string>): (v: TagsValue)
    ensures v.Null? <==> tags.None?
    ensures v.Raw? <==> tags == Some("")
    ensures v.Raw? ==> v.text == ""
    ensures v.List? <==> Truthy(tags)
    ensures v.List? ==> v.items == ParseList(tags.value) && Join(v.items) == Lower(tags.value)
  {
    match tags
    case None => Null
    case Some(s) =>
      if s == "" then Raw(s)
      else
        ParseListMeaning(s);
        List(ParseList(s))
  }

  /**
   * `int(self.get_argument('id'))`: a missing id is Tornado's 400 for a
   * missing argument, an id that does not parse is 400 "Expecting integer
   * value", and otherwise the parsed integer.
   */
  function ParseId(arg: Option<string>): (r: Result<int, Status>)
    ensures r.Success? <==> arg.Some? && ParseInt(arg.value).Some?
    ensures r.Success? ==> ParseInt(arg.value) == Some(r.value)
    ensures r.Failure? ==> r.error.code == 400
    ensures arg.None? ==> r == Failure(Status(400, Some("Missing argument id")))
    ensures arg.Some? && r.Failure? ==> r.error == Status(400, Some("Expecting integer value"))
  {
    match arg
    case None => Failure(Status(400, Some("Missing argument id")))
    case Some(s) =>
      match ParseInt(s)
      case None => Failure(Status(400, Some("Expecting integer value")))
      case Some(n) => Success(n)
  }

  /** Every id written out in decimal is accepted and read back as itself. */
  lemma IdRoundTrip(n: int)
    ensures ParseId(Some(Show(n))) == Success(n)
  {
    ParseShow(n);
  }

  /** The removal filter of a delete: `{_id: id}`, plus `tags: list` for a truthy `tags` argument. */
  datatype RemoveFilter = RemoveFilter(id: int, tags: Option<seq<string>>)

  /**
   * The filter a delete passes to the store: it always names the document,
   * and carries the parsed lower-case tag list exactly when `tags` is truthy.
   */
  function RemovalFilter(id: int, tags: Option<string>): (f: RemoveFilter)
    ensures f.id == id
    ensures f.tags.Some? <==> Truthy(tags)
    ensures f.tags.Some? ==> f.tags.value == ParseList(tags.value) && Join(f.tags.value) == Lower(tags.value)
  {
    if Truthy(tags) then
      ParseListMeaning(tags.value);
      RemoveFilter(id, Some(ParseList(tags.value)))
    else RemoveFilter(id, None)
  }

  /** The text in front of the id in the 404 message of a retag or a delete. */
  const NotFoundPrefix: string := "Could not find document with id "

  /** The text in front of the id in the message of a successful retag. */
  const UpdatedPrefix: string := "Updated document with id "

  /** The texts around the id in the message of a successful delete. */
  const DeletedPrefix: string := "Document id "
  const DeletedSuffix: string := " successfully deleted"

  /** `"Could not find document with id %i" % doc_id`: the prefix, then the id as `%i` prints it. */
  function NotFoundMessage(id: int): (m: string)
    ensures |NotFoundPrefix| < |m| && m[..|NotFoundPrefix|] == NotFoundPrefix
    ensures m[|NotFoundPrefix|..] == Show(id)
  {
    Framed(NotFoundPrefix, Show(id), "");
    NotFoundPrefix + Show(id) + ""
  }

  /** `"Updated document with id %i" % doc_id`: the prefix, then the id as `%i` prints it. */
  function UpdatedMessage(id: int): (m: string)
    ensures |UpdatedPrefix| < |m| && m[..|UpdatedPrefix|] == UpdatedPrefix
    ensures m[|UpdatedPrefix|..] == Show(id)
  {
    Framed(UpdatedPrefix, Show(id), "");
    UpdatedPrefix + Show(id) + ""
  }

  /**
   * `"Document id %i successfully deleted" % doc_id`: the prefix, the id as
   * `%i` prints it, and the suffix.
   */
  function DeletedMessage(id: int): (m: string)
    ensures |DeletedPrefix| + |DeletedSuffix| < |m|
    ensures m[..|DeletedPrefix|] == DeletedPrefix && m[|m| - |DeletedSuffix|..] == DeletedSuffix
    ensures m[|DeletedPrefix|..|m| - |DeletedSuffix|] == Show(id)
  {
    Framed(DeletedPrefix, Show(id), DeletedSuffix);
    DeletedPrefix + Show(id) + DeletedSuffix
  }

  /** The pieces of `prefix + x + suffix` are found again by slicing. */
  lemma Framed(prefix: string, x: string, suffix: string)
    ensures var m := prefix + x + suffix;
            && m[..|prefix|] == prefix
            && m[|m| - |suffix|..] == suffix
            && m[|prefix|..|m| - |suffix|] == x
  {
  }

  /** `int()` on the text after a message's prefix (and before its suffix) gives back the id. */
  lemma MessagesReadBack(id: int)
    ensures ParseInt(NotFoundMessage(id)[|NotFoundPrefix|..]) == Some(id)
    ensures ParseInt(UpdatedMessage(id)[|UpdatedPrefix|..]) == Some(id)
    ensures var m := DeletedMessage(id); ParseInt(m[|DeletedPrefix|..|m| - |DeletedSuffix|]) == Some(id)
  {
    ParseShow(id);
  }

  /** Messages name their document: two ids give the same message only if they are the same id. */
  lemma MessagesNameTheId(a: int, b: int)
    ensures NotFoundMessage(a) == NotFoundMessage(b) ==> a == b
    ensures UpdatedMessage(a) == UpdatedMessage(b) ==> a == b
    ensures DeletedMessage(a) == DeletedMessage(b) ==> a == b
  {
    if NotFoundMessage(a) == NotFoundMessage(b) || UpdatedMessage(a) == UpdatedMessage(b)
       || DeletedMessage(a) == DeletedMessage(b) {
      ShowInjective(a, b);
    }
  }

  /** The JSON object a successful retag answers with. */
  datatype PutReply = PutReply(success: bool, message: string, tags: TagsValue)

  /**
   * The corpus resource over its document store, the map from document id to
   * stored document that `ClassificationObject` persists.
   */
  class CorpusHandler {
    var store: map<int, Document>

    constructor (initial: map<int, Document>)
      ensures store == initial
    {
      store := initial;
    }

    /** `ClassificationObject.find_by_id`: the stored document, if there is one. */
    function FindById(id: int): (r: Option<Document>)
      reads this
      ensures r.Some? <==> id in store
      ensures r.Some? ==> r.value == store[id]
    {
      if id in store then Some(store[id]) else None
    }

    /**
     * `CorpusHandler.put`: retag one document. A bad id is 400 and an unknown
     * id 404, both leaving the store as it was; for a known id only that
     * document's tags change, to `WrittenTags(tags)`, and the reply echoes
     * that same value.
     */
    method Put(id: Option<string>, tags: Option<string>) returns (r: Result<PutReply, Status>)
      modifies this
      ensures ParseId(id).Failure? ==> r == Failure(ParseId(id).error) && store == old(store)
      ensures ParseId(id).Success? && ParseId(id).value !in old(store) ==>
                && r == Failure(Status(404, Some(NotFoundMessage(ParseId(id).value))))
                && store == old(store)
      ensures ParseId(id).Success? && ParseId(id).value in old(store) ==>
                var docId := ParseId(id).value;
                && r == Success(PutReply(true, UpdatedMessage(docId), WrittenTags(tags)))
                && store == old(store)[docId := old(store)[docId].(tags := WrittenTags(tags))]
      ensures r.Success? ==> r.value.tags == WrittenTags(tags)
      ensures store.Keys == old(store).Keys
    {
      var parsed := ParseId(id);
      if parsed.Failure? {
        return Failure(parsed.error);
      }
      var docId := parsed.value;
      var written := WrittenTags(tags);
      var found := FindById(docId);
      if found.Some? {
        Save(docId, found.value.(tags := written));
      } else {
        return Failure(Status(404, Some(NotFoundMessage(docId))));
      }
      r := Success(PutReply(true, UpdatedMessage(docId), written));
    }

    /** `c.save()`: the store keeps the changed document under its id. */
    method Save(id: int, doc: Document)
      modifies this
      ensures store == old(store)[id := doc]
    {
      store := store[id := doc];
    }

    /**
     * `c.remove(query)`: the store drops the document the filter names when the
     * store's own matching (`matches`, not modelled here) accepts it, and
     * touches no other document.
     */
    method Remove(filter: RemoveFilter, matches: (RemoveFilter, Document) -> bool)
      modifies this
      ensures store == if filter.id in old(store) && matches(filter, old(store)[filter.id])
                       then old(store) - {filter.id} else old(store)
      ensures forall k :: k in old(store) && k != filter.id ==> k in store && store[k] == old(store)[k]
    {
      if filter.id in store && matches(filter, store[filter.id]) {
        store := store - {filter.id};
      }
    }

    /**
     * `CorpusHandler.delete`: a bad id is 400 and an unknown id 404, with no
     * removal attempted; for a known id the store is asked to remove with
     * `RemovalFilter(id, tags)` and the status is 200 with the "successfully
     * deleted" message whether or not anything was removed.
     */
    method Delete(id: Option<string>, tags: Option<string>, matches: (RemoveFilter, Document) -> bool)
      returns (status: Status, removal: Option<RemoveFilter>)
      modifies this
      ensures ParseId(id).Failure? ==>
                status == ParseId(id).error && removal == None && store == old(store)
      ensures ParseId(id).Success? && ParseId(id).value !in old(store) ==>
                && status == Status(404, Some(NotFoundMessage(ParseId(id).value)))
                && removal == None
                && store == old(store)
      ensures ParseId(id).Success? && ParseId(id).value in old(store) ==>
                var docId := ParseId(id).value;
                && removal == Some(RemovalFilter(docId, tags))
                && status == Status(200, Some(DeletedMessage(docId)))
                && store == if matches(removal.value, old(store)[docId])
                            then old(store) - {docId} else old(store)
      ensures forall k :: k in old(store) && (removal == None || k != removal.value.id) ==>
                k in store && store[k] == old(store)[k]
    {
      var parsed := ParseId(id);
      if parsed.Failure? {
        return parsed.error, None;
      }
      var docId := parsed.value;
      var filter := RemovalFilter(docId, tags);
      var found := FindById(docId);
      if found.None? {
        return Status(404, Some(NotFoundMessage(docId))), None;
      }
      Remove(filter, matches);
      status, removal := Status(200, Some(DeletedMessage(docId))), Some(filter);
    }
  }
}
