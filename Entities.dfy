/**
 * The records the script handles. An entity is the JSON object returned by
 * the entity search (guid, name, entityType, domain and an ordered tag list);
 * `accountId` is absent as fetched and is attached once by the aggregation.
 * A response is one reply to one query, reduced to the three outcomes the
 * fetch loop distinguishes.
 */
module Entities {
  import opened Wrappers

  /** One tag: a key with its list of values. Keys may repeat within an entity. */
  datatype Tag = Tag(key: string, values: seq<string>)

  datatype Entity = Entity(
    guid: string,
    name: string,
    entityType: string,
    domain: string,
    tags: seq<Tag>,
    accountId: Option<int>)

  /** A reply to one request: a non-200 status, a 200 carrying `errors`, or a page of results. */
  datatype Response =
    | HttpFailure(status: int, text: string)
    | ApiErrors(messages: seq<string>)
    | Page(entities: seq<Entity>, nextCursor: Option<string>)
}
