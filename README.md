# Product search by image: top-N selector and access gateway

This project models the two pieces of logic in the image-search server
(`server.py`) and proves what they promise.

- **The top-N similarity selector** (`get_top_n_similar_images`). It scans every
  catalog document once. For each one it takes the distance to the query. It keeps
  at most `n` entries in a binary heap whose root is the farthest entry kept. It
  uses `heappush` while the heap is not full and `heappushpop` once it is full.
  At the end it sorts the heap in place into ascending distance and projects each
  entry to `(image_path, name, description, date, dist)`. The search routes call
  it with the default `n = 5`.
- **The access gateway**. `login` checks the basic credentials and issues a token
  with `user` and `exp = now + 30 minutes`. The `authenticate` wrapper reads the
  `Authorization` header and decodes the token. The `authorize` wrapper requires the
  token's subject to be a known user. Every gated route runs the two wrappers in that
  order before its handler.

Modules:

- `Wrappers` (wrappers.dfy): `Option` and `Result`.
- `Ranking` (ranking.dfy): the documents, the scored entries and the returned rows.
  It also holds the specification `IsTopN` of a correct answer and a reference
  characterisation by rank: a candidate is kept exactly when fewer than `n`
  candidates are strictly closer. It proves that the answer is unique when the
  distances are distinct, and proves the three-document example.
- `Heap` (heap.dfy): the heap as the prefix `a[..size]` of an array. It has explicit
  sift-up and sift-down, and `HeapPush` and `HeapPushPop` as in Python's `heapq`.
  Python's heap is a min-heap keyed on `-dist`. Here it is stated directly as a
  max-heap on `dist`.
- `TopN` (topn.dfy): the scan loop, the in-place final sort and the projection.
  The loop invariant `ScanState` says four things: the heap holds
  `KeepCount(n, seen)` entries, that is `min(n, seen)` for `n >= 0`; it is a heap; kept plus discarded entries are exactly
  the documents seen; and no discarded entry is closer than a kept one.
- `Gateway` (gateway.dfy): `Login`, `Authenticate`, `Authorize` and their
  composition `Gate`, as pure functions. They return either a `Denial` (status and
  error message) or the verified subject, which the source stores in `g.user`.

Distances are integer keys. JWT decoding is a parameter
`decode: string -> Option<Claims>`, where `None` means a bad signature or a
malformed token. `bcrypt.checkpw` is a parameter `checkpw`. The clock is a
parameter `now`, in whole seconds.

Equal distances: the source compares heap entries as Python tuples
`(-dist, dist, document)`. Two different documents at the same distance fall
through to comparing the document dictionaries, and Python raises `TypeError`
there. The model instead compares on the distance alone and strictly: a new
entry at the same distance as the heap root is discarded, and sifts stop at
equal distances. This is a modelling choice, not what the source does. The main
contract (`IsTopN`) holds with ties as well. The uniqueness and rank lemmas
assume distinct distances.

## Model

| member | source | states |
|---|---|---|
| `Ranking.ToMatch` | server.py:91 | a returned row carries the entry's own image path, name, description, date and distance |
| `Ranking.Project` | server.py:91 | the result list has one row per kept entry, in the same order, each the entry's own fields |
| `Ranking.KeepCount` | server.py:79-88 | the number of entries kept is 0 for `n <= 0`, `n` when `n` is at most the number of documents, and all of them otherwise |
| `Ranking.Closer` | server.py:81-88 | the candidates strictly closer than a given one, each taken from the scan |
| `Ranking.CloserCount` | server.py:81-88 | `Closer` keeps each strictly closer candidate as often as it was scanned, and nothing else |
| `Ranking.KeptHasFewerCloser` | server.py:85-88 | any correct answer keeps an entry only if fewer than `n` candidates are strictly closer than it (ties allowed) |
| `Ranking.DroppedHasManyCloser` | server.py:85-88 | with distinct distances, a candidate that is left out has at least `n` candidates strictly closer |
| `Ranking.TopNByRank` | server.py:76-91 | with distinct distances, a candidate is in the answer if and only if fewer than `n` candidates are strictly closer |
| `Ranking.SortedSameEntries` | server.py:90 | two strictly ascending lists with the same entries and no repeated distance are identical |
| `Ranking.TopNUnique` | server.py:76-91 | with distinct distances there is exactly one correct answer, so the selection is deterministic |
| `Ranking.ThreeDocumentsTopTwo` | server.py:76-91 | for documents at distances 1, 5 and 3 and `n = 2`, the only correct answer is the first document, then the third |
| `Heap.HeapRootIsMax` | server.py:85-88 | the heap root `top_n[0]` is the farthest entry kept |
| `Heap.SiftUp` | server.py:86 | restores the heap after an entry is placed at the end, permuting only the heap region |
| `Heap.SiftDown` | server.py:88 | restores the heap after the root is replaced, permuting only the heap region |
| `Heap.HeapPush` | server.py:86 | `heappush`: the heap grows by exactly the new entry and stays a heap |
| `Heap.HeapPushPop` | server.py:88 | `heappushpop`: the root is evicted and replaced only when the new entry is strictly closer, otherwise the new entry comes back and the heap is unchanged; what comes out is at least as far as everything kept |
| `TopN.SortAscending` | server.py:90 | `top_n.sort(reverse=True)` on `(-dist, …)`: the array ends ascending by distance and is a permutation of what it held |
| `TopN.Offer` | server.py:85-88 | one loop iteration keeps the scan state: the heap holds `KeepCount(n, seen)` entries (`min(n, seen)` for `n >= 0`), kept plus discarded equals what was seen, and nothing discarded is closer than anything kept |
| `TopN.SelectClosest` | server.py:79-90 | the scan with the bounded heap followed by the in-place sort leaves a correct answer: `min(n, M)` entries taken from the scanned documents without invention or duplication, ascending by distance, none left out closer than one kept |
| `TopN.ProjectedRows` | server.py:91 | the rows of a correct answer number `min(n, M)`, ascend by distance, and each is the projection of a scanned document |
| `TopN.GetTopNSimilarImages` | server.py:76-91 | the rows number `min(n, M)`, ascend by distance and each is the projection of a scanned document; they are the projection of a correct answer: `min(n, M)` entries taken from the scanned documents without invention or duplication, ascending by distance, and no left-out document is closer than a returned one; an empty scan gives an empty list |
| `TopN.ThreeDocumentSearch` | server.py:76-91 | the search over documents at distances 1, 5 and 3 with `n = 2` returns the rows of the first and the third document, in that order |
| `Gateway.Login` | server.py:63-73 | checks in order: missing username or password, then unknown username, then wrong password, each a 401 with its own message; claims are issued exactly when all three pass, naming the user and expiring 30 minutes after `now` |
| `Gateway.Authenticate` | server.py:39-51 | a missing or empty header gives 401 "Missing token"; a token that does not decode, has expired or has no `user` claim gives 401 "Invalid token"; otherwise the subject is the `user` claim |
| `Gateway.Authorize` | server.py:54-60 | the subject passes exactly when it is a key of the user table; otherwise 403 "Unauthorized" |
| `Gateway.Gate` | server.py:97-99 | a gated route runs its handler exactly when authentication succeeds and the subject is a known user, and then with that subject; an authentication failure is answered with authenticate's own 401 and its message, and the 403 "Unauthorized" comes only for an authenticated subject missing from the user table |
| `Gateway.RejectedIgnoresHandler` | server.py:42-59 | a rejected request never reaches its handler: the response is the same whatever the handler is |
| `Gateway.IssuedTokenLifetime` | server.py:46-72 | a token issued by login at time T is accepted by every gated route at any time before T + 30 minutes and rejected as "Invalid token" from then on |

## Left out

- Euclidean distance and normalisation (`np.linalg.norm`, and the feature extractor): floating-point numerics. Distances are given integer keys.
- Equal distances: the source raises `TypeError` when it compares two heap entries with equal distance and different documents. The model compares on distance only and discards or stops on equality. The reasons are given above.
- `Heap.SiftUp`, `Heap.SiftDown`: these are the textbook swap-based sifts. Python's `heapq` moves a hole, and its `_siftup` first sinks the hole to a leaf. The heap layout can differ. The kept entries do not differ, because they depend only on comparisons with the root, which always holds the largest distance.
- `TopN.SortAscending`: an insertion sort stands in for Python's Timsort. Both leave the list ascending by distance and a permutation of its input. Among equal distances the order may differ; the source raises on those anyway.
- The catalog cursor is the sequence of scanned documents. The MongoDB connection, `find` and `insert_one`, and the document `_id` are not modelled. Neither is image opening, saving or timestamped path building.
- The `/create` ingest handler and the search route bodies: they consist of store, file and feature-extractor calls only. The default `n = 5` that the search routes pass is a plain argument to `GetTopNSimilarImages`.
- JWT encoding and decoding and bcrypt hashing: foreign libraries. Decoding is the parameter `decode`, password checking is `checkpw`, and an issued token is represented by the claims it carries. Other registered claims that the JWT library would check (`nbf`, `iat`, `aud`) are not modelled; the tokens this service issues carry none of them.
- `Gateway.Login`: `datetime.utcnow()` has microseconds and the JWT library truncates `exp` to whole seconds. The model takes `now` in whole seconds.
- `Gateway.Authenticate`: the `user` claim is a string or missing. A non-string JSON value that cannot be a dictionary key, which would make `authorize` fail with a server error, is not modelled.
- Absent basic-auth fields: the model represents them as the empty string. The source treats `None` and `""` alike (both falsy).
- Flask routing, template rendering, the `request` and `g` globals, and the unauthenticated duplicate `GET /home` route are not modelled. `g.user` becomes the subject that `Authenticate` returns.
