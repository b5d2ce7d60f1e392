# Entity fetch and CSV shaping, modelled in Dafny

This project models the logic of `fetch_entities.py`, a script that pulls
entity records (hosts, services, applications) from New Relic's NerdGraph
GraphQL API for several accounts and flattens them into files. The model
covers four parts:

- **Query construction** (`Query`). `get_entities_query` builds a filter
  clause (`domain IN ('a', 'b') AND accountId = N`, or `accountId = N` when
  the domain list is absent or empty) and a cursor slot (`null`, or the
  cursor in double quotes). It embeds both in a fixed GraphQL template.
  Decoders read the account id, the domains and the cursor back, which shows
  what the text carries. Nothing is escaped, so a domain containing `', '`
  forges a second list element.
- **Pagination** (`Fetch`). `fetch_all_entities` is a method whose loop
  consumes an input sequence of replies. A reply is an HTTP failure, an
  `errors` payload or a page. The loop appends each page's entities, follows
  `nextCursor`, and stops on a failure, an error payload, or an absent or
  empty cursor. While no name is known, it scans each page's entities and
  their tags for an `account` tag. The scan stops at the first truthy name.
- **CSV shaping** (`Csv`). `write_entities_to_csv` produces a header (five
  fixed columns followed by the sorted union of tag keys) and one row
  dictionary per entity. Tag values are joined with `", "`, a later tag with
  the same key overwrites an earlier one, and a missing key is written blank.
- **Aggregation** (`Aggregation`). `main`'s `as_completed` loop stamps each
  account's entities with the account id and collects (domain, entityType)
  pairs. It counts entities by type per account, merges those counts into
  global counts and appends the entities to the global list. Results arrive
  in completion order, which is arbitrary. The model takes that order as an
  input sequence and proves that the pair set, the global counts, the CSV
  header and the multiset of entities do not depend on it.

Support modules: `Wrappers` (`Option`), `Text` (`Join`, decimal rendering
and parsing, the code-point order used by `sorted`, and sorting a set of
keys), `Entities` (tags, entities and replies).

Behaviour of the code that the model keeps:

- The first request's cursor argument is the token `null`; it is not omitted
  (`fetch_entities.py:23`).
- An empty-string `nextCursor` also ends pagination (`fetch_entities.py:81`).
- A name is "found" once it is not `None`. An empty first value `""` stops
  later pages from being scanned, but the current page continues to later
  entities (`fetch_entities.py:67-74`).
- Tag values are joined by a comma and a space (`fetch_entities.py:125`).

A tag whose key equals a fixed column (New Relic entities often carry an
`accountId` tag) makes the header contain that column twice. The row then
holds the tag's joined values under that key instead of the stamped id.
`Csv.TagKeyRepeatsColumn` states the duplicated column.

## Model

| member | source | states |
|---|---|---|
| Text.DecimalRoundTrip | fetch_entities.py:15-17 | The decimal text of an account id, as an f-string renders it, parses back to the same integer, negatives included |
| Text.SortedKeys | fetch_entities.py:111 | `sorted(tag_keys)`: strictly increasing in code-point order, holding exactly the keys of the set, each once |
| Text.LexLessTotal | fetch_entities.py:111 | Any two distinct strings are ordered one way or the other by Python's string comparison |
| Text.LexLessTransitive | fetch_entities.py:111 | Python's string comparison is transitive |
| Text.SortedPair | fetch_entities.py:111 | Two keys already in order sort to themselves |
| Query.Filter | fetch_entities.py:13-17 | The filter opens with `domain IN (` exactly when a non-empty domain list is given, and it always ends with `accountId = ` and the id's decimal text |
| Query.CursorSlot | fetch_entities.py:23 | The slot is the bare token `null` exactly when there is no cursor; a cursor, even one spelled `null`, appears between double quotes |
| Query.EntitiesQuery | fetch_entities.py:12-40 | The query is the fixed head, the filter clause, the fixed middle that closes the filter and opens `results(cursor: `, text that reads back as the cursor argument, and the fixed tail, in that order |
| Query.QuotedAll | fetch_entities.py:14 | Each domain is wrapped in single quotes, in order, one per domain |
| Query.FilterRoundTrip | fetch_entities.py:13-17 | With a non-empty list of quote-free domains, the filter carries exactly those domains and the account id. With an absent or empty list, it carries only the account id |
| Query.DomainListRoundTrip | fetch_entities.py:14 | The `', '`-joined list of quoted, quote-free domains reads back as the same domains, whatever follows it, unless that text starts with `, '` |
| Query.DomainInjection | fetch_entities.py:14-15 | Domains are not escaped: the single domain `APM', 'INFRA` gives the same filter as the two domains `APM` and `INFRA` |
| Query.CursorSlotRoundTrip | fetch_entities.py:23 | The cursor slot is `null` for no cursor and the cursor between double quotes otherwise; both read back to the cursor argument |
| Query.QueryDeterminesCursor | fetch_entities.py:19-40 | For fixed account and domains, two queries are equal only if their cursor arguments are equal |
| Fetch.FindAccountName | fetch_entities.py:68-74 | The nested entity/tag loops with their two breaks compute the page scan `ScanEntities(entities, None)` |
| Fetch.FetchAllEntities | fetch_entities.py:43-89 | Returns the input id. Consumes replies up to and including the first ending one (failure, errors, or no/empty cursor). Sends `None` and then each page's cursor, each request's text being `get_entities_query` for the account, its domains and that cursor. Returns the entities of the consumed pages in order and the discovered name |
| Fetch.FetchPages | fetch_entities.py:50-87 | The request loop, for any query builder: the consumed replies, the cursors sent, each query built from its cursor, the accumulated entities and the discovered name |
| Fetch.PageEntitiesFromPages | fetch_entities.py:53-63 | An entity is returned exactly when it belongs to a page among the consumed replies; failures and error replies add nothing |
| Fetch.ConsumedOnly | fetch_entities.py:50-82 | The entities, the name and the cursors after `n` replies depend only on those `n` replies |
| Fetch.ThreePages | fetch_entities.py:50-82 | Three chained pages of sizes 3, 2, 1 (the last without a cursor) stop the loop after the third reply and return the six entities in page order |
| Fetch.ErrorAfterFirstPage | fetch_entities.py:53-63 | A page with a next cursor followed by an error reply stops the loop at the error; only the first page's entities come back |
| Fetch.CursorsFollowPages | fetch_entities.py:80-82 | The first request has no cursor. Each later request carries the previous page's cursor, which is a non-empty string |
| Fetch.AccountValueFirst | fetch_entities.py:69-72 | A tag list yields the first value of its first `account` tag with a non-empty value list |
| Fetch.AccountValueNone | fetch_entities.py:69-72 | A tag list yields nothing exactly when no tag is an `account` tag with values |
| Fetch.ScanFindsFirstNonEmpty | fetch_entities.py:68-74 | A page scan yields the first non-empty account value, whatever empty values precede it |
| Fetch.ScanWithoutNonEmpty | fetch_entities.py:68-74 | With no non-empty account value on the page, the scan yields `""` if some entity has an empty one and otherwise keeps the prior name |
| Fetch.ScanAppend | fetch_entities.py:68-74 | Scanning two runs of entities is scanning the second from where the first stopped, unless the first found a truthy name |
| Fetch.ScanEmptyNameWitness | fetch_entities.py:70-73 | A scan yields `""` only if some scanned entity has an empty account value |
| Fetch.NameKeptOnceSet | fetch_entities.py:67 | Once a name is set (even to `""`), later replies never change it |
| Fetch.NameIsFirstAcrossPages | fetch_entities.py:66-74 | Without empty account values, per-page discovery equals one scan over all entities returned: the first account value across pages and entities |
| Fetch.EmptyNameEdge | fetch_entities.py:67-74 | An empty first value on page one leaves the name `""` although page two holds `Prod`. On a single page, the later `Prod` wins |
| Csv.Fieldnames | fetch_entities.py:106-111 | The tag-key collection loops produce the header: fixed columns followed by the sorted tag keys |
| Csv.EntityRow | fetch_entities.py:117-125 | The row loop produces the row dictionary: fixed cells, then each tag setting its key to its joined values |
| Csv.EntitiesCsv | fetch_entities.py:105-126 | The field names and one row per entity, in entity order |
| Csv.KeysOfMembership | fetch_entities.py:109-110 | A key is collected from a tag list exactly when some tag has it |
| Csv.TagKeysMembership | fetch_entities.py:107-110 | A key is in `tag_keys` exactly when some tag of some entity has it |
| Csv.HeaderColumns | fetch_entities.py:106-111 | The header is the five fixed columns followed by strictly sorted keys, which are exactly the tag keys of the entities |
| Csv.HeaderOrderFree | fetch_entities.py:107-111 | Entity lists with the same members have the same header |
| Csv.TagKeyRepeatsColumn | fetch_entities.py:106-111 | A tag keyed `accountId` puts a second `accountId` column after the fixed ones |
| Csv.TagCellsKeys | fetch_entities.py:123-124 | The row's keys are the fixed columns plus the entity's tag keys |
| Csv.LastTagWins | fetch_entities.py:123-124 | Among tags sharing a key, the last one's joined values end up in the row |
| Csv.UntaggedKeepsBase | fetch_entities.py:117-124 | A key carried by no tag keeps its fixed-cell value, or stays absent |
| Csv.TaggedCell | fetch_entities.py:117-126 | The cell under a tagged column holds the last such tag's values joined by `", "` |
| Csv.UntaggedCell | fetch_entities.py:117-126 | The cell under a column no tag carries holds the fixed field (the account id in decimal for `accountId`), or is blank for other columns |
| Csv.RowKeysInHeader | fetch_entities.py:114-126 | Every row key is a header column, so the writer never sees an unknown field |
| Csv.EnvTeamHeader | fetch_entities.py:106-111 | Entities tagged `{env}` and `{env, team}` give the header: fixed columns, then `env`, `team` |
| Csv.EnvTeamKeys | fetch_entities.py:107-110 | The same entities have tag keys `{env, team}` |
| Csv.EnvTeamCells | fetch_entities.py:117-126 | In the same example the first row's `team` cell is blank, its `env` cell is `prod`, and the second row's `team` cell is `a, b` |
| Aggregation.StampEntities | fetch_entities.py:149-151 | The stamping loop sets each entity's account id and adds the pair of each stamped entity to the pair set |
| Aggregation.CountByType | fetch_entities.py:157-163 | The counting loop yields, for each type present, the number of the account's entities of that type |
| Aggregation.MergeCounts | fetch_entities.py:172-176 | Merging key by key, in any order, adds the account's counts to the global counts |
| Aggregation.Aggregate | fetch_entities.py:144-179 | After all results, in completion order, the global list holds all stamped entities, the pair set is the set of their pairs, and the global counts are the merged per-account counts |
| Aggregation.ProcessAccounts | fetch_entities.py:137-182 | `main`'s data flow: aggregation, then every entity carries an account id and the CSV header and rows are those of the global list |
| Aggregation.StampSetsAccount | fetch_entities.py:149-150 | Stamping sets the account id of every entity and changes nothing else |
| Aggregation.StampKeepsTypes | fetch_entities.py:150-158 | Stamping changes neither the types nor the counts |
| Aggregation.AllEntitiesAppend | fetch_entities.py:179 | The global list over two runs of results is the concatenation of the two lists |
| Aggregation.StampMembership | fetch_entities.py:149-150 | An entity is in a stamped list exactly when it is a list entity with that account id set |
| Aggregation.AllEntitiesStampedWith | fetch_entities.py:149-150 | An entity is in the global list exactly when it is some account's entity stamped with that account's id |
| Aggregation.AllEntitiesStamped | fetch_entities.py:149-150 | Every entity reaching the CSV carries an account id |
| Aggregation.PairsMembership | fetch_entities.py:151 | A pair is collected exactly when some entity has that domain and type |
| Aggregation.PairsAppend | fetch_entities.py:151 | The pairs of two lists are the union of their pairs |
| Aggregation.CountsOfSnoc | fetch_entities.py:159-163 | One more entity raises its type's count by one, or adds the type with count one |
| Aggregation.CountsMeaning | fetch_entities.py:157-163 | A type is counted exactly when some entity has it, and its count is the number of entities of that type |
| Aggregation.MergeCountsOf | fetch_entities.py:172-176 | Merging the counts of two lists gives the counts of their concatenation |
| Aggregation.GlobalCountsAreTotals | fetch_entities.py:172-179 | The merged per-account counts are the counts of the global list |
| Aggregation.TotalCounts | fetch_entities.py:157-168 | A list's counts sum to its length |
| Aggregation.AllEntitiesPerm | fetch_entities.py:179 | Reordering the results permutes the global list |
| Aggregation.TypesPerm | fetch_entities.py:157-163 | Permuted entities have permuted types |
| Aggregation.AggregationOrderFree | fetch_entities.py:143-182 | For any completion order, the global list holds the same entities (as a multiset), every one of them carries an account id, and the pair set, the global counts, the CSV header and the set of CSV rows are the same |

## Left out

- HTTP (`requests.post`), JSON decoding and JSON field access are not modelled. A reply is the abstract `Response`: `HttpFailure` stands for any non-200 status, `ApiErrors` for a 200 payload with `errors`, and `Page` for a results object.
- Fetch.FetchAllEntities: requires that some reply ends the loop. Against an API that never stops paginating the source loops forever, and the model has no counterpart for that run.
- Fetch.FetchPages: the loop's two `break`s are modelled by a `done` flag that ends the loop at the same point. Like `Fetch.FetchAllEntities`, it requires that some reply ends the loop.
- `total_entities`, the `tqdm` progress bars, `time.sleep(1)` between pages, and all `print` output are side effects with no logical content.
- File writing, `csv.DictWriter` quoting and escaping, and the `entity_types.csv` writer loop are not modelled. `Csv.Cell` stands in for the writer's default blank value.
- `write_entities_to_txt` is formatting only and relies on Python's `repr` of a list.
- `write_entity_types_to_csv` is never called; `main` writes the pair file inline.
- `ThreadPoolExecutor` and `as_completed`: only concurrency. Aggregation is a sequential fold over an arbitrary completion order, and its results are proved independent of that order.
- `argparse` and `config.ACCOUNTS`: configuration plumbing. An account id is an integer here. A string id from the configuration would render the same text in the filter, but the CSV would hold it unchanged.
- Entities are values: stamping builds new entity values rather than mutating shared dictionaries, so aliasing between per-account and global lists is not modelled.
- Tag values and names are strings. The source passes JSON values through unchecked.
- Aggregation.MergeCounts: visits the keys of a count dictionary in an arbitrary order rather than insertion order. The result does not depend on the order.
