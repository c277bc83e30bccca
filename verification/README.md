# Corpus handler model

A Dafny model of the corpus request handler of Nosy (`corpus/corpus_handler.py`),
the Tornado handler that lists, retags and deletes the classification documents
of a tagged corpus.

What is modelled:

- **Argument parsing** shared by all three operations: `s.split(',')`, lower-casing
  every piece, and Python 2's `int()` on the `limit` and `id` arguments. Request
  arguments are `Option<string>`: `None` when absent, `Some("")` when given empty, so
  that the handler's tests of Python truthiness are modelled exactly.
- **`GET /corpus`** (`CorpusHandler.get`) as a pure function from the four arguments
  to either status 400 or the `find` call the handler makes: the filter document
  (`stemmed_keywords` optional, `tags` always present, each an `AllOf`, `NotEqual` or
  `Equals` predicate), the limit and the sort key. The stemmer is a function
  parameter.
- **`PUT /corpus`** and **`DELETE /corpus`** as methods of a `CorpusHandler` class
  whose `store` field maps document ids to stored documents. Each method states
  its status, what it writes or asks the store to remove, and the whole new store.
  The store's own matching for a removal is a function parameter.

The keyword filter and the tag filter are independent: with both `keywords` and
`tags` given, the filter carries both. `tags` overrides `tagged`, and `tagged` is
read by string truthiness, so `tagged=false` still selects tagged documents. A
retag with no `tags` argument writes `None`, and one with an empty `tags` writes
the empty string itself. Both are modelled as the code does them. A delete answers
200 "successfully deleted" for any known id, whether or not the tag-scoped removal
matched.

## Model

| member | source | states |
|---|---|---|
| Text.Lower | corpus/corpus_handler.py:21 | lower-casing keeps the length, lower-cases each character and leaves no upper-case letter |
| Text.Split | corpus/corpus_handler.py:21 | splitting on ',' gives at least one piece and no piece contains a comma |
| Text.SplitCount | corpus/corpus_handler.py:21 | there is one piece more than there are commas, so empty pieces are kept |
| Text.SplitThenJoin | corpus/corpus_handler.py:21 | joining the pieces with ',' gives back the input |
| Text.JoinThenSplit | corpus/corpus_handler.py:21 | splitting a ','-join of comma-free pieces gives the same pieces in the same order |
| Text.LowerAll | corpus/corpus_handler.py:28 | lower-casing a list keeps its length and order and lower-cases each item |
| Text.ParseList | corpus/corpus_handler.py:60 | the parsed list has one item per comma-separated piece, each item lower-case |
| Text.ParseListMeaning | corpus/corpus_handler.py:87 | each parsed item is the lower-cased piece, in order, with no comma; joining the items gives the lower-cased input; parsing is splitting the lower-cased input |
| Numbers.ParseInt | corpus/corpus_handler.py:12 | `int()` never reads a number from a string without a digit, so an empty or non-numeric argument fails |
| Numbers.DecimalForm | corpus/corpus_handler.py:12 | every string of digits is some zeros followed by the decimal form of its value |
| Numbers.ParseIntForm | corpus/corpus_handler.py:12 | an argument `int()` accepts is, once stripped, an optional sign, then zeros, then the decimal form of the value's magnitude; a negative value has the '-' sign and a '-' sign never gives a positive value |
| Numbers.ParsePadded | corpus/corpus_handler.py:12 | whitespace around the number, a '+' sign and leading zeros leave the value unchanged, and a '-' sign negates it |
| Numbers.ParseIntRefuses | corpus/corpus_handler.py:12 | an argument whose stripped text has anything but a digit after its first character (a decimal point, a letter, inner whitespace) is refused |
| Numbers.ShowNat | corpus/corpus_handler.py:68 | the decimal form used by `%i` is digits only, has no leading zero and reads back as the number |
| Numbers.Show | corpus/corpus_handler.py:68 | `%i` of an integer starts with '-' exactly when it is negative, and the decimal form of its magnitude follows the sign |
| Numbers.ParseShow | corpus/corpus_handler.py:68 | `int("%i" % n) == n` for every integer, negatives included |
| Numbers.ShowInjective | corpus/corpus_handler.py:96 | two ids with the same decimal form are the same id |
| Corpus.ParseLimit | corpus/corpus_handler.py:11-14 | an absent limit is 10; a limit that does not parse is status 400 with no message; otherwise it is the parsed integer |
| Corpus.LimitRoundTrip | corpus/corpus_handler.py:12 | every integer given in decimal is accepted as the limit unchanged |
| Corpus.StemAll | corpus/corpus_handler.py:22 | stemming keeps the number and order of the words and stems each one |
| Corpus.KeywordFilter | corpus/corpus_handler.py:19-23 | `stemmed_keywords` is present exactly when `keywords` is non-empty, and is then AllOf the stemmed lower-cased pieces, one per piece, in order |
| Corpus.TagFilter | corpus/corpus_handler.py:26-36 | a non-empty `tags` gives AllOf its parsed list (whose join is the lower-cased argument) whatever `tagged` is; else a non-empty `tagged` gives NotEqual([]); else Equals([]) |
| Corpus.ListRequest | corpus/corpus_handler.py:10-42 | a bad limit is 400 and no find call is made; otherwise find gets the two filters, the parsed limit (10 if absent) and the single sort key ("last_modified", -1) |
| Corpus.FiltersAreIndependent | corpus/corpus_handler.py:19-36 | the keyword filter does not depend on `tags`/`tagged`, the tag filter does not depend on `keywords`, and with both arguments given the query holds both |
| Corpus.TagsOverrideTagged | corpus/corpus_handler.py:27-29 | with a non-empty `tags`, the value of `tagged` does not change the filter |
| Corpus.TaggedIsTruthiness | corpus/corpus_handler.py:32-36 | `tagged=false` and `tagged=0` select tagged documents; only an absent or empty `tagged` gives the untagged view |
| Corpus.SingleTag | corpus/corpus_handler.py:27-29 | a non-empty `tags` without a comma gives the filter AllOf its lower case alone, whatever `tagged` is |
| Corpus.BuildQuery | corpus/corpus_handler.py:16-36 | the query has `stemmed_keywords` exactly when `keywords` is non-empty, and it is then AllOf the stemmed lower-cased pieces, one per piece, in order; its `tags` part is AllOf exactly when `tags` is non-empty, and its items are then the pieces of the lower-cased `tags` (joining back to it); it is NotEqual([]) exactly when only `tagged` is non-empty, and Equals([]) exactly when neither is |
| Corpus.WrittenTags | corpus/corpus_handler.py:58-60 | a retag writes None for an absent `tags`, the raw "" for an empty one, and otherwise the parsed lower-case list, which joins back to the lower-cased argument |
| Corpus.ParseId | corpus/corpus_handler.py:53-56 | a missing id is 400 "Missing argument id", an id that does not parse is 400 "Expecting integer value", otherwise the parsed integer |
| Corpus.IdRoundTrip | corpus/corpus_handler.py:54 | every integer given in decimal is accepted as the id unchanged |
| Corpus.RemovalFilter | corpus/corpus_handler.py:82-88 | the removal filter always carries `_id`, and carries `tags` (the parsed lower-case list) exactly when `tags` is non-empty |
| Corpus.NotFoundMessage | corpus/corpus_handler.py:68 | the 404 message is "Could not find document with id " followed by the id as `%i` prints it |
| Corpus.UpdatedMessage | corpus/corpus_handler.py:70 | the retag message is "Updated document with id " followed by the id as `%i` prints it |
| Corpus.DeletedMessage | corpus/corpus_handler.py:96 | the delete message is "Document id ", the id as `%i` prints it, then " successfully deleted" |
| Corpus.MessagesReadBack | corpus/corpus_handler.py:68-96 | `int()` of the text between a message's fixed parts gives back the id it names |
| Corpus.MessagesNameTheId | corpus/corpus_handler.py:68-96 | the not-found, updated and deleted messages each determine the id they name |
| Corpus.CorpusHandler.FindById | corpus/corpus_handler.py:63 | the lookup finds a document exactly when the id is stored, and returns the stored document |
| Corpus.CorpusHandler.Save | corpus/corpus_handler.py:65-66 | saving replaces the document under its id and changes nothing else |
| Corpus.CorpusHandler.Put | corpus/corpus_handler.py:52-73 | bad id: 400, store unchanged; unknown id: 404 "Could not find document with id N", store unchanged; known id: only that document's tags change, to the written value, and the reply is success with "Updated document with id N" and that same tags value |
| Corpus.CorpusHandler.Remove | corpus/corpus_handler.py:92 | removal affects only the document the filter names, dropping it when the store's matching accepts it |
| Corpus.CorpusHandler.Delete | corpus/corpus_handler.py:76-96 | bad id: 400, no removal; unknown id: 404, no removal, store unchanged; known id: removal with the id-and-tags filter and status 200 "Document id N successfully deleted" whether or not it removed anything; no other document changes |

## Left out

- `TagsHandler.get` (corpus/corpus_handler.py:98-104): it only passes on the store's list of distinct tags.
- The application's route table, `listen` and the IOLoop (corpus/corpus_handler.py:106-113): process wiring and I/O.
- JSON serialisation, `to_dict` and the Content-Type header (corpus/corpus_handler.py:44-48, 70-73): foreign library calls. A successful retag is modelled as the `PutReply` value it serialises.
- The store's query semantics (`$all`, `$ne`, exact-array match, the limit and the sort): `find` is modelled as the `FindCall` value the handler passes, not as the documents it returns, so "at most `limit` results, newest first" is not stated.
- The store's matching in `remove` is the `matches` parameter of `Delete`; the model only fixes that removal touches the named document and nothing else.
- `ClassificationObject.stem` is the `stem` parameter; `find_by_id` and `save` are a lookup in and an update of the `store` map. Anything else `save` may change (such as a modification time) is not modelled.
- Lower-casing covers ASCII letters only; Python's Unicode `lower()` is not modelled.
- Numbers.ParseInt: models Python 2 `int()` as an optional sign and ASCII digits with ASCII whitespace around them; it rejects whitespace between the sign and the digits and non-ASCII digits, which Python 2 accepts in some cases.
- Tornado's own processing of argument values (replacing control characters with spaces, then stripping whitespace) happens before the handler sees them; arguments are modelled as the values `get_argument` returns.
- Where Tornado shows an `HTTPError` message (log or page) is not modelled; `Status` carries the code and the message the handler raises.
- A found document is assumed truthy; store failures (500) are not modelled.
- The list operation is modelled as the code does it: the keyword filter and the tag filter are applied together, not as alternatives, and a delete adds its tag filter only for a non-empty `tags` argument.
