# redis-stream-lyz: reply normalisation of `RedisStream`

`RedisStream` wraps the stream commands of a Redis client. Most of its
methods forward their arguments to one command. The logic is in how the
replies of XREAD, XREADGROUP, XPENDING and XINFO GROUPS become structured
records. This project models that reshaping in one Dafny module,
`RedisQueue` (`redis_queue.dfy`).

- **Pairing.** A flat reply list `[k0, v0, k1, v1, …]` becomes the fields
  `{key, value}`. The source does this with a `forEach` loop that pushes a
  pair at every odd index. `PairUp` models that loop as a method. It is
  proved equal to the recursive function `Pairs`. `Flatten` is its inverse,
  and `Find` is the lookup `fields.find(f => f.key == k)` the tests use.
- **Reshaping.** `Read`, `MulGroupRead`, `GroupRead`, `Pending` and
  `GroupInfo` take the command's reply as an input value and return what
  the corresponding method resolves to. A `null` reply is `None`. The guard
  `!result || !result[0]` is the predicate `Absent`.
- **Throwing.** `groupRead` reads `result[0][1][0][1]` without a check. When
  the first stream is present but has no entry, that throws a TypeError.
  The model returns the outcome `TypeError` in that case.
- **Undefined slots.** `pending` reads `arr[0]` … `arr[3]`. On a shorter
  row these are `undefined`, which the model writes as `None`.

An odd-length flat list is not rejected: the unpaired last element is
silently dropped (`PairsDropsTrailing`).

`groupRead` returns `null` only when the reply is null or has no first
stream; when the first stream's entry list is empty it throws (`GroupRead`'s
`TypeError`).

## Model

| member | source | states |
|---|---|---|
| `RedisQueue.Pairs` | src/redis-queue.ts:60-64 | the pairing of a flat list has half as many fields as the list has elements (rounded down), and field `i` is `(xs[2i], xs[2i+1])`; order and duplicate keys are kept |
| `RedisQueue.Flatten` | src/redis-queue.ts:60-64 | the flat wire form of a field list has twice as many elements, with key `i` at position `2i` and value `i` at `2i+1` (the inverse of the pairing) |
| `RedisQueue.PairUp` | src/redis-queue.ts:60-64 | the `forEach` loop that pushes `(list[i-1], list[i])` at every odd index `i` yields exactly `Pairs(list)`; the same loop appears at lines 104-108, 125-129 and 145-149 |
| `RedisQueue.PairsFlatten` | src/redis-queue.ts:60-64 | round trip: pairing the flat form of any field list gives that list back, duplicate keys and order included |
| `RedisQueue.FlattenPairs` | src/redis-queue.ts:60-64 | round trip the other way: flattening the pairs of a list gives the list back, less its last element when its length is odd |
| `RedisQueue.PairsDropsTrailing` | src/redis-queue.ts:104-108 | an odd-length list pairs exactly as it would without its last element; nothing is raised |
| `RedisQueue.Find` | test/test-stream.test.ts:61-63 | `find(f => f.key == k)` yields nothing exactly when no field has key `k`, and otherwise yields the value of the first field whose key is `k` |
| `RedisQueue.LookupFollowingValue` | src/redis-queue.ts:145-149 | after pairing, looking up a key yields the element that follows its first occurrence at a key position |
| `RedisQueue.LookupMissing` | src/redis-queue.ts:145-149 | after pairing, a key is missing exactly when no key position with a following value holds it; a value equal to the key is never taken for a key |
| `RedisQueue.NormaliseEntry` | src/redis-queue.ts:58-66 | a normalised entry keeps the id, has half as many fields as the flat list (rounded down), and its fields flatten back to that list less an unpaired last element |
| `RedisQueue.Read` | src/redis-queue.ts:55-67 | `read` returns `[]` when the reply is null or has no first stream (the guard at line 57, predicate `Absent`); otherwise it returns one record per entry of the first stream, in order, with entry `i`'s id and the pairing of its fields |
| `RedisQueue.MulGroupRead` | src/redis-queue.ts:121-133 | `mulGroupRead` returns `[]` on an absent reply (the guard at line 123, predicate `Absent`); otherwise one record per entry of the first stream, in order, with the entry's id and paired fields |
| `RedisQueue.GroupRead` | src/redis-queue.ts:99-110 | `groupRead` returns `null` exactly when the reply is absent (the guard at line 101, predicate `Absent`); it throws exactly when the first stream has no entry; otherwise it returns the first entry of the first stream with its id and paired fields |
| `RedisQueue.Pending` | src/redis-queue.ts:40-46 | `pending` returns `[]` when the reply is null or empty (the guard at line 42, predicate `Absent`); otherwise one row per reply row, in order; slot `k` of output row `i` (`id`, `consumer`, `num1`, `num2` for `k` = 0..3) holds element `k` of reply row `i`, or is undefined when that row is too short |
| `RedisQueue.GroupInfo` | src/redis-queue.ts:140-152 | `groupInfo` returns `[]` on an absent reply (the guard at line 142, predicate `Absent`); otherwise one attribute list per group, in reply order, each the pairing of that group's flat attribute list |
| `RedisQueue.ReadRoundTrip` | src/redis-queue.ts:58-66 | an entry whose flat fields come from a field list reads back through `read`, `mulGroupRead` and `groupRead` with those same fields, in the same order |
| `RedisQueue.GroupReadIsFirstOfRead` | src/redis-queue.ts:100-109 | `groupRead` yields the first record `read` would produce from the same reply; it yields `null` on an absent reply and throws when `read` would give `[]` on a present reply |
| `RedisQueue.ReadIgnoresLaterStreams` | src/redis-queue.ts:102 | `read` and `groupRead` depend only on the first stream of the reply |
| `RedisQueue.GroupInfoLookup` | test/test-stream.test.ts:61-63 | in the `groupInfo` output for a group, looking up `name`, `consumers`, `pending` or any other key finds the value that followed the key's first occurrence in that group's flat reply |

## Left out

- The Redis client calls (`xadd`, `xgroup`, `xack`, `xread`, `xreadgroup`, `xpending`, `xinfo`): each reply is an input value of the model, not behaviour.
- `setId`, `ack`, `add` and `createGroup` (src/redis-queue.ts:16-29, 77-90): they only forward their arguments to one command.
- The class `RedisStream` and its constructor: its only field, the client handle, is set once and never changes, so the reshaping is modelled as functions of the reply.
- The `count`, `start`, `stop` and id arguments: they only go to the server.
- The server's stream semantics: which entries a read returns, cursor advance under `">"`, pending-list insertion and removal, ack idempotence, id order. They live in Redis, not in this code.
- `async`/`await`: each operation is modelled by the value its promise resolves to, or by `TypeError` for a rejection.
- The `string | number` values of `groupInfo` and the numbers in `pending` rows: values are an opaque type parameter, with no JavaScript coercion.
- Find: compares keys with the element type's equality, not with JavaScript's loose `==`.
