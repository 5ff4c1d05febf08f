# psycopg3 adaptation core, modelled in Dafny

This project models the part of psycopg3 that converts values between Python objects and
PostgreSQL wire data:

- the per-query `Transformer`, which:
  - resolves dumpers by cache key and format, and loaders by OID and format, through two caches per format;
  - binds a query result's columns to loaders (`pgresult` setter, `set_row_types`);
  - converts in bulk: `dump_sequence`, `load_rows`, `load_row`, `load_sequence`;
- the element search `_find_list_element`, which keys lists by the class of their first non-`None` leaf;
- the registration API of `Dumper` and `Loader`: `register`, `register_binary`, the `text` and `binary` decorators, and the constructors;
- `_connection_from_context`.

Layout:

- `wrappers.dfy`: `Option`, `Result` and `Outcome`. A raised exception is a `Failure` / `Fail` carrying its error kind.
- `proto.dfy`: the shared vocabulary:
  - formats and OIDs;
  - application values over a heap of list objects, where a list's identity is its node id;
  - the adapters map, reduced to two partial maps from `(format, class)` and `(format, OID)` to a factory;
  - the result record;
  - the connection and cursor objects, with their registration maps;
  - the kinds of adaptation context.
- `adapt.dfy`:
  - `_connection_from_context`;
  - the `Dumper` and `Loader` classes and their registration class methods;
  - `Registry`, the class-level `globals` maps.
- `list_search.dfy`: `_find_list_element` as a pair of functions. They thread the set of visited list identities through the walk as the Python code threads its mutable `seen` set. Lemmas cover:
  - the flat case;
  - the general case: against an independent pre-order flattening, for a list from which no list is reachable twice;
  - that a found element is reachable;
  - self-reference and shared sublists.
- `transform.dfy`: the `Transformer` class:
  - its four caches, its bound result and its per-column loaders;
  - the ghost invariant that every cached dumper or loader was built by the factory for its key;
  - every operation that changes the Transformer or runs a loop as a method proved against those definitions, and `load_sequence`, which does neither, as a function.

Dumpers and loaders are opaque. A dumper carries the `oid` and `dump` function of the factory it was built from, and a loader the `load` function. These are uninterpreted functions.

## Model

| member | source | states |
|---|---|---|
| Adapt.ConnectionFromContext | psycopg3/psycopg3/adapt.py:140-152 | No context gives no connection, a connection gives itself, and a cursor or Transformer gives the connection it holds. Any other object is a TypeError, and only such an object fails. |
| Adapt.Registry.constructor | psycopg3/psycopg3/adapt.py:19 | The class-level registration maps start empty. |
| Adapt.Dumper.constructor | psycopg3/psycopg3/adapt.py:22-25 | The context defaults to none. `src` and the context are recorded unchanged. The connection is the one the context yields. `oid` and `dump` come from the factory. |
| Adapt.Dumper.New | psycopg3/psycopg3/adapt.py:22-25 | Instantiation raises TypeError exactly when the context is an object other than `None`, a connection, a cursor or a Transformer. Otherwise it gives a fresh dumper with the fields above. |
| Adapt.Dumper.Register | psycopg3/psycopg3/adapt.py:30-54 | The context defaults to none and the format to TEXT. TypeError when `src` is not a class, or when the dumper is neither callable nor a Dumper subclass; no map is modified. Otherwise it sets exactly the entry `(src, format)` of the context's `dumpers`, or of the global map when there is no context, overwriting any previous entry, and returns the dumper unchanged. A context with no `dumpers` map (a Transformer or any other object) raises AttributeError. All loader maps are untouched. |
| Adapt.Dumper.RegisterBinary | psycopg3/psycopg3/adapt.py:56-60 | The same as `register` with format BINARY, including its errors and the untouched loader maps. |
| Adapt.Dumper.Text | psycopg3/psycopg3/adapt.py:62-68 | Applying the decorator calls `register` with its default context and format, so it registers the dumper globally for TEXT and returns it unchanged; the errors are those of `register`. |
| Adapt.Dumper.Binary | psycopg3/psycopg3/adapt.py:70-76 | Applying the decorator registers the dumper globally for BINARY and returns it unchanged. |
| Adapt.Loader.constructor | psycopg3/psycopg3/adapt.py:83-86 | The context defaults to none. The OID and context are recorded unchanged. The connection is the one the context yields. `load` comes from the factory. |
| Adapt.Loader.New | psycopg3/psycopg3/adapt.py:83-86 | Instantiation raises TypeError exactly when the context is an object other than `None`, a connection, a cursor or a Transformer. Otherwise it gives a fresh loader with the fields above. |
| Adapt.Loader.Register | psycopg3/psycopg3/adapt.py:91-115 | The context defaults to none and the format to TEXT. TypeError when `oid` is not an int, or when the loader is neither callable nor a Loader subclass; no map is modified. Otherwise it sets exactly the entry `(oid, format)` of the context's `loaders` or of the global map, and returns the loader unchanged. A context with no `loaders` map (a Transformer or any other object) raises AttributeError. All dumper maps are untouched. |
| Adapt.Loader.RegisterBinary | psycopg3/psycopg3/adapt.py:117-121 | The same as `register` with format BINARY, including its errors and the untouched dumper maps. |
| Adapt.Loader.Text | psycopg3/psycopg3/adapt.py:123-129 | Applying the decorator calls `register` with its default context and format, so it registers the loader globally for TEXT and returns it unchanged. |
| Adapt.Loader.Binary | psycopg3/psycopg3/adapt.py:131-137 | Applying the decorator registers the loader globally for BINARY and returns it unchanged. |
| ListSearch.FindIn | psycopg3/psycopg3/_transform.py:219-240 | A list already visited is reported as a cycle, and only then. The visited set only grows. A found element is a stored element that is neither `None` nor a list. |
| ListSearch.FindItems | psycopg3/psycopg3/_transform.py:232-240 | The walk over a list's elements. A result is neither `None` nor a list, and nothing is found only when every element is `None` or a list. |
| ListSearch.FlatListFindsFirstNonNull | psycopg3/psycopg3/_transform.py:232-240 | On a list with no nested list, the search yields its first non-`None` element (nothing if all are `None`) and never reports a cycle. |
| ListSearch.SelfReferenceIsCyclic | psycopg3/psycopg3/_transform.py:227-234 | A list stored directly in itself, after only `None` elements, raises DataError. |
| ListSearch.NestedSelfReferenceIsCyclic | psycopg3/psycopg3/_transform.py:227-234 | A list whose only element is a list holding the first one (`L = [[L]]`) raises DataError. |
| ListSearch.FoundIsReachable | psycopg3/psycopg3/_transform.py:219-240 | An element found from a list is stored in a list reachable from it through list elements. |
| ListSearch.FoundInItemsIsReachable | psycopg3/psycopg3/_transform.py:232-240 | An element found in a list's items is one of them, or is stored in a list reachable from a list among them. |
| ListSearch.FindItemsInPreOrder | psycopg3/psycopg3/_transform.py:232-240 | When no list is met twice, the walk over some items finds the first element, in pre-order, that is neither `None` nor a list. When it finds nothing, the visited set has grown by exactly the lists met in that walk. It requires that no list of the walk is met twice or was visited before. |
| ListSearch.NestedListInPreOrder | psycopg3/psycopg3/_transform.py:232-236 | The same when the first item is a nested list: the search descends into it and then goes on with the remaining items, as the pre-order walk does. |
| ListSearch.FindInIsFirstInPreOrder | psycopg3/psycopg3/_transform.py:219-240 | For a list from which no list is reachable twice, the search never reports a cycle. It returns the first element of the list's pre-order flattening that is not `None`, or nothing. |
| ListSearch.TreeBesideCycleIsFirstInPreOrder | psycopg3/psycopg3/_transform.py:219-240 | The pre-order result applies to a tree-shaped list even when its heap also holds an unrelated list that contains itself: `[None, 1]` beside `L = [L]` yields `1`. |
| ListSearch.SearchMarksRoot | psycopg3/psycopg3/_transform.py:227-230 | After the search, the list searched is in the visited set. |
| ListSearch.SharedNullSublistIsCyclic | psycopg3/psycopg3/_transform.py:225-236 | The visited set is never unwound, so a list holding the same all-`None` list twice is reported as a cycle although it has none. |
| ListSearch.SharedSublistWithLeafIsFound | psycopg3/psycopg3/_transform.py:232-236 | The same sharing with a non-`None` leaf finds the leaf before the second visit. |
| Transform.LeafOf | psycopg3/psycopg3/_transform.py:129-131 | The leaf that completes a list key is the element the search found, or `""` when it found nothing. |
| Transform.DumperKeyOf | psycopg3/psycopg3/_transform.py:124-132 | A non-list is keyed by its class. A list is keyed by `(list, class of its leaf)`, with `str` when there is no leaf. Keying fails, with DataError, exactly when the search meets a list twice. The key's base class is always the value's class. |
| Transform.AllNullListKeyIsStr | psycopg3/psycopg3/_transform.py:129-132 | A flat list of `None` elements is keyed `(list, str)`. |
| Transform.FlatListKey | psycopg3/psycopg3/_transform.py:129-132 | A flat list is keyed by the class of its first non-`None` element. |
| Transform.NestedListKey | psycopg3/psycopg3/_transform.py:124-132 | A list from which no list is reachable twice is keyed by the class of the first element of its pre-order flattening that is not `None`, or by `str` when there is none. |
| Transform.SelfReferenceKeyFails | psycopg3/psycopg3/_transform.py:129-132 | A list stored directly in itself, after only `None` elements, cannot be keyed (DataError). |
| Transform.UnknownOid | psycopg3/psycopg3/_transform.py:42-51 | The OID for `None` parameters is `text` exactly when there is a connection whose server version is below 100000, and OID 0 otherwise. |
| Transform.RestDumpableGrows | psycopg3/psycopg3/_transform.py:134-146 | Caches that only gained entries keep every parameter dumpable that was dumpable before. |
| Transform.BoundLoadersDecodeEveryRow | psycopg3/psycopg3/_transform.py:165-171 | With one loader per column, every row of a well-formed result decodes to a record of `nfields` values. |
| Transform.Transformer.constructor | psycopg3/psycopg3/_transform.py:41-66 | The adapters and connection come from the context, or are the global adapters and no connection without one. The unknown OID is `UnknownOid(connection)`. All four caches and the row loaders start empty, and the cache invariant holds. |
| Transform.Transformer.FindListElement | psycopg3/psycopg3/_transform.py:219-240 | The recursive search, with its loop, returns exactly what `FindIn` defines: the element found and the visited set it leaves. |
| Transform.Transformer.GetTypeDumper | psycopg3/psycopg3/_transform.py:122-145 | For a non-list key: a cache hit returns the cached dumper and changes nothing. A miss with no factory is a ProgrammingError that changes nothing. Otherwise a fresh dumper, built on this Transformer, is inserted under the key in this format only. |
| Transform.Transformer.GetListDumper | psycopg3/psycopg3/_transform.py:127-151 | For a list: a cycle is a DataError that changes nothing; a hit returns the cached dumper. Otherwise, with a factory for `list`, the new list dumper is cached first. The leaf's dumper is then resolved in the same format and attached as its sub-dumper. A failure there (ProgrammingError) leaves the list entry cached without a sub-dumper. The other format is never touched. |
| Transform.Transformer.GetDumper | psycopg3/psycopg3/_transform.py:122-151 | It succeeds exactly when the value is dumpable with the cache as it was, and the result is the cache entry for the value's key. Entries are only added, never replaced, and the other format's cache is unchanged. It fails with DataError exactly when the key cannot be computed (nothing changes then), and otherwise with ProgrammingError. The only keys it may add are the value's key and, for a list, its leaf's key. A ProgrammingError leaves the cache as it was, except for a list whose dumper was cached before its leaf's dumper failed. Cached dumpers always come from the factory of their key's base class. |
| Transform.Transformer.DumpParam | psycopg3/psycopg3/_transform.py:114-118 | The encoding of one non-`None` parameter is the `dump` and `oid` of the factory registered for its class, and its key is then cached. It succeeds when the parameter is dumpable. Only the cache of its format changes, and only by the keys `get_dumper` may add for it. |
| Transform.Transformer.DumpSequence | psycopg3/psycopg3/_transform.py:108-120 | Two sequences as long as the parameters. A `None` parameter gets no buffer and the unknown OID. Every other parameter gets the bytes and OID of the factory for its class and format, and its key is cached. It succeeds when every parameter is dumpable on entry. Caches only grow, and each format's cache only by the keys of the non-`None` parameters in that format. |
| Transform.Transformer.GetLoader | psycopg3/psycopg3/_transform.py:205-217 | A hit returns the cached loader and changes nothing. On a miss, the factory for the OID, else for OID 0, builds a fresh loader, cached under the requested OID in this format only. When neither factory exists it raises InterfaceError and changes nothing. |
| Transform.Transformer.ColumnLoaders | psycopg3/psycopg3/_transform.py:94-97 | The column loop: loader `i` is the cached loader of column `i`'s OID and format. It stops at the first column with no loader, which is an InterfaceError. It passes exactly when every column has a loader. Each format's loader cache only grows, and only by OIDs of columns in that format. |
| Transform.Transformer.SetPgResult | psycopg3/psycopg3/_transform.py:80-97 | Unbinding zeroes the counts and empties the row loaders. Binding sets the counts from the result and rebuilds the row loaders from scratch, one per column, each the cached loader of that column's OID and format. On an InterfaceError, the loaders of the columns before the failing one stay bound. The loader caches gain only OIDs of the result's columns, each in its column's format. |
| Transform.Transformer.SetRowTypes | psycopg3/psycopg3/_transform.py:99-106 | The row loaders become one loader per given type, in order. On an InterfaceError they are left as they were. The loader caches gain only OIDs of the given columns, each in its column's format. |
| Transform.Transformer.LoadRecord | psycopg3/psycopg3/_transform.py:166-171 | One record is decoded cell by cell: NULL stays `None` without calling a loader, and other cells go through their column's loader. IndexError, exactly when a non-NULL cell has no loader. |
| Transform.Transformer.LoadRows | psycopg3/psycopg3/_transform.py:153-173 | InterfaceError with no bound result, or when a bound is outside `[0, ntuples]`. Otherwise it returns `row1 - row0` decoded records (none when `row1 <= row0`), each of `nfields` values, or IndexError when a row has a non-NULL cell without a loader. |
| Transform.Transformer.LoadRow | psycopg3/psycopg3/_transform.py:175-189 | `None`, not an error, with no bound result or a row outside `[0, ntuples)`. Otherwise the decoded row of `nfields` values, or IndexError. |
| Transform.Transformer.LoadSequence | psycopg3/psycopg3/_transform.py:191-203 | ProgrammingError exactly when the record's length differs from the number of row loaders. Otherwise a record of the same length, with `None` kept position by position and every other cell decoded by its column's loader. |
| Transform.Transformer.LoadSequenceAgreesWithLoadRow | psycopg3/psycopg3/_transform.py:183-203 | With loaders bound to every column, `load_sequence` of a row's cells decodes it as `load_row` does. |
| Transform.SameKeySameDumper | psycopg3/psycopg3/_transform.py:134-145 | Two `get_dumper` calls with the same key and format return the same instance. A call in the other format that misses its cache returns a different one. |

## Left out

- The C-accelerated `Transformer` (psycopg3/psycopg3/adapt.py:155-165) is import plumbing and is not modelled.
- `AdaptersMap` is not part of this model. The adapters map is an abstract pair of partial maps from `(format, class)` and `(format, OID)` to factories:
  - its `get_dumper`/`get_loader` are plain lookups;
  - a missing entry stands for a `None` answer;
  - its relation to the class-level `globals` maps is not stated.
- The concrete `dump` and `load` bodies are uninterpreted functions carried by each instance.
- A `dump` that returns a `(bytes, oid)` tuple is not modelled; dumpers return bytes and report a fixed `oid`.
- The libpq result object and `pgconn.server_version` are replaced by a plain result record and an integer. The record's shape (one type and one format per column, one cell per column in every row) is assumed as libpq guarantees it.
- `oids.py` is not part of this model. `INVALID_OID = 0` and `TEXT_OID = 25` are the PostgreSQL catalogue values.
- Error message texts are not modelled, only the error kinds.
- Truthiness: `if context:` and `if not result:` are taken to test only for `None`. An adaptation context or result object is never falsy.
- Python's `id()` and `type()` become node ids over a heap of list objects and the `Value` datatype. A subclass of `list` is an ordinary class, since the search recurses only into exact `list`.
- Transform.Transformer.constructor: requires a context that is `None`, a connection, a cursor or a Transformer. Any other object, whose attribute access the source performs duck-typed, is not modelled.
- Transform.Transformer.DumpSequence: requires a format for every parameter. In the source, a shorter `formats` raises IndexError at the first non-`None` parameter past its end; that error is not modelled. Success is stated in one direction: it is guaranteed when every parameter is dumpable on entry.
- Transform.Transformer.SetRowTypes: requires at least as many formats as types. The IndexError a shorter `formats` raises is not modelled.
- ListSearch.FindItems: the converse of "nothing found only if every element is `None` or a list" is not stated in general. A shared empty sublist makes the search report a cycle instead (see `ListSearch.SharedNullSublistIsCyclic`).
- Transform.Transformer.SetPgResult: requires a well-formed result record (the libpq shape above).
- Adapt.Dumper.Register and Adapt.Loader.Register: the AttributeError for a Transformer or any other context stands for the missing `dumpers` / `loaders` attribute. `AdaptContext` (`proto.py`) is not part of this model, so that a Transformer carries no such maps is an assumption.
- Adapt.ConnectionFromContext: a `TransformerContext` stands for an instance of `_transform.Transformer`. psycopg3/psycopg3/adapt.py:155-165 binds the name `Transformer` tested at line 149 to `transform.Transformer` or to the C class; neither module is part of this model. The model assumes that an instance of `_transform.Transformer` passes that check, as the dumpers and loaders it instantiates with itself as context require.
- Transform.Transformer.constructor: `global_adapters`, imported at psycopg3/psycopg3/_transform.py:53, is not defined in psycopg3/psycopg3/adapt.py as shown and is not part of this model. The model takes that map as the constructor's `globalAdapters` parameter.
- Transform.Transformer: `adapters` is a constant snapshot of the context's adapters map. The source holds a reference to a mutable map that registrations made after the Transformer is built would change. `Transform.DumpersBuilt`, `Transform.LoadersBuilt`, `Transform.ParamDumped` and the `load` clause of `Transform.Transformer.GetLoader` rely on that snapshot.
- ListSearch.SelfReferenceIsCyclic and Transform.SelfReferenceKeyFails state only the direct case. A longer path back to the list is shown on one heap (`ListSearch.NestedSelfReferenceIsCyclic`), not in general.
- The `pgresult`, `connection` and `adapters` properties are plain reads of the corresponding fields. The list dumper's `set_sub_dumper`, which lives outside these files, is modelled only as setting `sub`.
