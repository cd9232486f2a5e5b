/** A model of the reply normalisation done by class RedisStream: the flat,
    nested replies of the Redis stream commands (XREAD, XREADGROUP, XPENDING,
    XINFO GROUPS) become structured records. Each command's reply is an input
    value here; the Redis client that produces it is not modelled. */
module RedisQueue {

  /** `None` stands for a `null` reply, or for JavaScript's `undefined`. */
  datatype Option<T> = None | Some(value: T)

  /** How a call ends: with a value, or by throwing a TypeError because a
      property of `undefined` was read. */
  datatype Completion<T> = Returned(value: T) | TypeError

  /** One `{key, value}` object built by the pairing loop. */
  datatype Field<T> = Field(key: T, value: T)

  /** One entry of a stream as Redis sends it: `[id, [k0, v0, k1, v1, ...]]`. */
  datatype RawEntry = RawEntry(id: string, fields: seq<string>)

  /** One stream of an XREAD / XREADGROUP reply: `[streamName, [entry, ...]]`. */
  datatype StreamReply = StreamReply(name: string, entries: seq<RawEntry>)

  /** A normalised entry: `{id, data: [{key, value}, ...]}`. */
  datatype Entry = Entry(id: string, data: seq<Field<string>>)

  /** A normalised XPENDING row: `{id, consumer, num1, num2}`. Each slot is
      `None` when the row has no element at that position (the source reads
      `arr[k]`, which is `undefined` past the end of the row). */
  datatype PendingEntry<V> = PendingEntry(id: Option<V>, consumer: Option<V>, num1: Option<V>, num2: Option<V>)

  // ---------------------------------------------------------------------
  // Pairing of a flat alternating key/value list
  // ---------------------------------------------------------------------

  /** The pairs `(xs[0], xs[1]), (xs[2], xs[3]), ...`; an unpaired last
      element is dropped. */
  function Pairs<T>(items: seq<T>): (r: seq<Field<T>>)
    ensures |r| == |items| / 2
    ensures forall i :: 0 <= i < |r| ==> r[i] == Field(items[2 * i], items[2 * i + 1])
  {
    if |items| < 2 then [] else [Field(items[0], items[1])] + Pairs(items[2..])
  }

  /** The flat wire form of a list of fields: `[k0, v0, k1, v1, ...]`. */
  function Flatten<T>(fields: seq<Field<T>>): (r: seq<T>)
    ensures |r| == 2 * |fields|
    ensures forall i :: 0 <= i < |fields| ==> r[2 * i] == fields[i].key && r[2 * i + 1] == fields[i].value
  {
    if fields == [] then [] else [fields[0].key, fields[0].value] + Flatten(fields[1..])
  }

  /** The `forEach` loop of the source: walk the flat list and, at every odd
      index, push the previous element as key and the current one as value. */
  method PairUp<T>(items: seq<T>) returns (arr: seq<Field<T>>)
    ensures arr == Pairs(items)
  {
    arr := [];
    for index := 0 to |items|
      invariant |arr| == index / 2
      invariant forall k :: 0 <= k < |arr| ==> arr[k] == Field(items[2 * k], items[2 * k + 1])
    {
      if index % 2 == 1 {
        arr := arr + [Field(items[index - 1], items[index])];
      }
    }
  }

  /** Pairing undoes flattening: every list of fields, duplicate keys and
      their order included, comes back unchanged. */
  lemma PairsFlatten<T>(fields: seq<Field<T>>)
    ensures Pairs(Flatten(fields)) == fields
  {
  }

  /** Flattening the pairs gives back the flat list, less its last element
      when the length is odd. */
  lemma {:induction false} FlattenPairs<T>(items: seq<T>)
    ensures Flatten(Pairs(items)) == items[..|items| - |items| % 2]
  {
    if |items| >= 2 {
      FlattenPairs(items[2..]);
      var ps := Pairs(items);
      assert ps[1..] == Pairs(items[2..]);
    }
  }

  /** An odd-length list pairs exactly as it would without its last element:
      the trailing element is dropped and nothing is reported. */
  lemma PairsDropsTrailing<T>(items: seq<T>)
    requires |items| % 2 == 1
    ensures Pairs(items) == Pairs(items[..|items| - 1])
  {
  }

  // ---------------------------------------------------------------------
  // Looking up a key in a list of fields (`fields.find(f => f.key == k)`)
  // ---------------------------------------------------------------------

  /** The value of the first field whose key is `key`, if any. */
  function Find<T(==)>(fields: seq<Field<T>>, key: T): (r: Option<T>)
    ensures r.None? <==> forall i :: 0 <= i < |fields| ==> fields[i].key != key
    ensures forall i :: 0 <= i < |fields| && fields[i].key == key && (forall j :: 0 <= j < i ==> fields[j].key != key)
              ==> r == Some(fields[i].value)
  {
    if fields == [] then None
    else if fields[0].key == key then Some(fields[0].value)
    else Find(fields[1..], key)
  }

  /** After pairing, looking up `key` yields the element that followed the
      first occurrence of `key` at a key position (`2 * k`) of the flat list. */
  lemma LookupFollowingValue<T>(items: seq<T>, key: T, k: nat)
    requires 2 * k + 1 < |items| && items[2 * k] == key
    requires forall j :: 0 <= j < k ==> items[2 * j] != key
    ensures Find(Pairs(items), key) == Some(items[2 * k + 1])
  {
  }

  /** After pairing, `key` is missing exactly when no key position of the
      flat list that has a following value holds `key`; a value equal to
      `key` is never taken for a key. */
  lemma LookupMissing<T>(items: seq<T>, key: T)
    ensures Find(Pairs(items), key).None?
            <==> forall k :: 0 <= k && 2 * k + 1 < |items| ==> items[2 * k] != key
  {
  }

  // ---------------------------------------------------------------------
  // Reshaping of the command replies
  // ---------------------------------------------------------------------

  /** The guard `!result || !result[0]`: a null reply, or one without a first
      element. A first element that exists is an array, hence truthy. */
  predicate Absent<X>(reply: Option<seq<X>>)
  {
    reply.None? || |reply.value| == 0
  }

  /** `{ id: data[0], data: pairs(data[1]) }`. */
  function NormaliseEntry(e: RawEntry): (r: Entry)
    ensures r.id == e.id
    ensures |r.data| == |e.fields| / 2
    ensures Flatten(r.data) == e.fields[..|e.fields| - |e.fields| % 2]
  {
    FlattenPairs(e.fields);
    Entry(e.id, Pairs(e.fields))
  }

  /** `read`: the entries of the first stream of an XREAD reply, one output
      per entry and in the same order; later streams are not looked at. */
  function Read(reply: Option<seq<StreamReply>>): (r: seq<Entry>)
    ensures Absent(reply) ==> r == []
    ensures !Absent(reply) ==> |r| == |reply.value[0].entries|
    ensures !Absent(reply) ==> forall i :: 0 <= i < |r| ==>
              r[i].id == reply.value[0].entries[i].id && r[i].data == Pairs(reply.value[0].entries[i].fields)
  {
    if Absent(reply) then []
    else
      var entries := reply.value[0].entries;
      seq(|entries|, i requires 0 <= i < |entries| => NormaliseEntry(entries[i]))
  }

  /** `mulGroupRead`: the source repeats the body of `read` word for word on
      the XREADGROUP reply, so it is the same reshaping. */
  function MulGroupRead(reply: Option<seq<StreamReply>>): (r: seq<Entry>)
    ensures Absent(reply) ==> r == []
    ensures !Absent(reply) ==> |r| == |reply.value[0].entries|
    ensures !Absent(reply) ==> forall i :: 0 <= i < |r| ==>
              r[i].id == reply.value[0].entries[i].id && r[i].data == Pairs(reply.value[0].entries[i].fields)
  {
    Read(reply)
  }

  /** `groupRead`: `null` on an absent reply; otherwise the first entry of the
      first stream, normalised. When that stream has no entry, `result[0][1][0]`
      is `undefined` and reading its element 1 throws. */
  function GroupRead(reply: Option<seq<StreamReply>>): (r: Completion<Option<Entry>>)
    ensures r == Returned(None) <==> Absent(reply)
    ensures r == TypeError <==> !Absent(reply) && |reply.value[0].entries| == 0
    ensures r.Returned? && r.value.Some? ==>
              && !Absent(reply) && |reply.value[0].entries| > 0
              && r.value.value.id == reply.value[0].entries[0].id
              && r.value.value.data == Pairs(reply.value[0].entries[0].fields)
  {
    if Absent(reply) then Returned(None)
    else
      var entries := reply.value[0].entries;
      if |entries| == 0 then TypeError
      else Returned(Some(NormaliseEntry(entries[0])))
  }

  /** `pending`: one row out per XPENDING row, in the same order; a row
      `[id, consumer, idle, deliveries]` maps position by position to
      `{ id: arr[0], consumer: arr[1], num1: arr[2], num2: arr[3] }`, and a
      position past the end of the row is `undefined`. */
  function Pending<V>(reply: Option<seq<seq<V>>>): (r: seq<PendingEntry<V>>)
    ensures Absent(reply) ==> r == []
    ensures !Absent(reply) ==> |r| == |reply.value|
    ensures !Absent(reply) ==> forall i :: 0 <= i < |r| ==>
              && r[i].id == (if |reply.value[i]| > 0 then Some(reply.value[i][0]) else None)
              && r[i].consumer == (if |reply.value[i]| > 1 then Some(reply.value[i][1]) else None)
              && r[i].num1 == (if |reply.value[i]| > 2 then Some(reply.value[i][2]) else None)
              && r[i].num2 == (if |reply.value[i]| > 3 then Some(reply.value[i][3]) else None)
  {
    if Absent(reply) then []
    else
      var rows := reply.value;
      seq(|rows|, i requires 0 <= i < |rows| =>
        PendingEntry(Slot(rows[i], 0), Slot(rows[i], 1), Slot(rows[i], 2), Slot(rows[i], 3)))
  }

  /** JavaScript's `row[k]`. */
  function Slot<V>(row: seq<V>, k: nat): Option<V>
  {
    if k < |row| then Some(row[k]) else None
  }

  /** `groupInfo`: one attribute list per consumer group, in reply order, each
      built from the group's flat attribute list by the pairing rule. */
  function GroupInfo<V>(reply: Option<seq<seq<V>>>): (r: seq<seq<Field<V>>>)
    ensures Absent(reply) ==> r == []
    ensures !Absent(reply) ==> |r| == |reply.value|
    ensures !Absent(reply) ==> forall g :: 0 <= g < |r| ==> r[g] == Pairs(reply.value[g])
  {
    if Absent(reply) then []
    else
      var groups := reply.value;
      seq(|groups|, g requires 0 <= g < |groups| => Pairs(groups[g]))
  }

  // ---------------------------------------------------------------------
  // Properties relating the operations
  // ---------------------------------------------------------------------

  /** An entry appended with some fields reads back with the same fields in
      the same order, duplicates included, through `read`, `mulGroupRead`
      and `groupRead`. */
  lemma ReadRoundTrip(name: string, id: string, fields: seq<Field<string>>)
    ensures Read(Some([StreamReply(name, [RawEntry(id, Flatten(fields))])])) == [Entry(id, fields)]
    ensures MulGroupRead(Some([StreamReply(name, [RawEntry(id, Flatten(fields))])])) == [Entry(id, fields)]
    ensures GroupRead(Some([StreamReply(name, [RawEntry(id, Flatten(fields))])])) == Returned(Some(Entry(id, fields)))
  {
    PairsFlatten(fields);
  }

  /** `groupRead` yields the first record `read` would produce from the same
      reply, `null` when the reply is absent, and throws when the first
      stream is present but empty. */
  lemma GroupReadIsFirstOfRead(reply: Option<seq<StreamReply>>)
    ensures GroupRead(reply) == (if Absent(reply) then Returned(None)
                                 else if Read(reply) == [] then TypeError
                                 else Returned(Some(Read(reply)[0])))
  {
  }

  /** Only the first stream of a reply is read. */
  lemma ReadIgnoresLaterStreams(first: StreamReply, rest: seq<StreamReply>)
    ensures Read(Some([first] + rest)) == Read(Some([first]))
    ensures GroupRead(Some([first] + rest)) == GroupRead(Some([first]))
  {
  }

  /** In the `groupInfo` output for group `g`, looking up `key` finds the
      value that followed the first occurrence of `key` as a key in that
      group's flat XINFO GROUPS reply (as `name`, `consumers` and `pending`
      are looked up). */
  lemma GroupInfoLookup<V>(reply: Option<seq<seq<V>>>, g: nat, key: V, k: nat)
    requires reply.Some? && g < |reply.value|
    requires 2 * k + 1 < |reply.value[g]| && reply.value[g][2 * k] == key
    requires forall j :: 0 <= j < k ==> reply.value[g][2 * j] != key
    ensures g < |GroupInfo(reply)| && Find(GroupInfo(reply)[g], key) == Some(reply.value[g][2 * k + 1])
  {
  }
}
