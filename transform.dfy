/**
 * The Transformer: the per-query object that resolves and caches dumpers (by class and format)
 * and loaders (by OID and format), binds a result's columns to loaders, and converts parameter
 * sequences and result rows in bulk.
 */
module Transform {
  import opened Wrappers
  import opened Proto
  import opened Adapt
  import opened ListSearch

  /** A dumper cache key: a class, or `(list, element class)` for a list. */
  datatype DumperKey = TypeKey(cls: PyType) | ListKey(elem: PyType) {
    /** The class whose factory builds the dumper for this key. */
    function BaseType(): PyType {
      if TypeKey? then cls else ListType
    }
  }

  /** `m2` keeps every entry of `m1`, with the same value. */
  predicate Extends<K, V(==)>(m1: map<K, V>, m2: map<K, V>) {
    forall k | k in m1 :: k in m2 && m2[k] == m1[k]
  }

  /** The element of the list `id` whose class completes its key: the search's leaf, or `""`. */
  function LeafOf(h: Heap, id: NodeId): (r: Value)
    requires WellFormed(h) && id in h
    ensures r.Scalar?
    ensures FindIn(h, id, {}).found.Element? ==> r == FindIn(h, id, {}).found.v
    ensures FindIn(h, id, {}).found.NoElement? ==> r == EmptyString
  {
    match FindIn(h, id, {}).found
    case Element(v) => v
    case _ => EmptyString
  }

  /**
   * The cache key of `obj`: its class; for a list, `(list, class of its leaf)`, or a DataError
   * when the search meets a list twice.
   */
  function DumperKeyOf(h: Heap, obj: Value): (r: Result<DumperKey, Error>)
    requires WellFormed(h) && ValueIn(h, obj)
    ensures !obj.ListRef? ==> r == Success(TypeKey(TypeOf(obj)))
    ensures obj.ListRef? ==> (r.Failure? <==> FindIn(h, obj.id, {}).found.Cyclic?)
    ensures r.Failure? ==> r.error == DataError
    ensures r.Success? ==> r.value.BaseType() == TypeOf(obj)
    ensures obj.ListRef? && r.Success? ==> r.value == ListKey(TypeOf(LeafOf(h, obj.id)))
    ensures r.Success? && r.value.ListKey? ==> r.value.elem.Class?
  {
    if !obj.ListRef? then Success(TypeKey(TypeOf(obj)))
    else if FindIn(h, obj.id, {}).found.Cyclic? then Failure(DataError)
    else Success(ListKey(TypeOf(LeafOf(h, obj.id))))
  }

  /** A list with no nested list and no element other than `None` is keyed `(list, str)`. */
  lemma AllNullListKeyIsStr(h: Heap, id: NodeId)
    requires WellFormed(h) && id in h
    requires forall v | v in h[id] :: v.Null?
    ensures DumperKeyOf(h, ListRef(id)) == Success(ListKey(StrType))
  {
    assert {} + {id} == {id};
    FlatListFindsFirstNonNull(h, h[id], {id});
  }

  /** A list with no nested list is keyed by the class of its first non-`None` element. */
  lemma FlatListKey(h: Heap, id: NodeId, k: nat)
    requires WellFormed(h) && id in h
    requires forall v | v in h[id] :: !v.ListRef?
    requires k < |h[id]| && !h[id][k].Null? && forall j | 0 <= j < k :: h[id][j].Null?
    ensures DumperKeyOf(h, ListRef(id)) == Success(ListKey(TypeOf(h[id][k])))
  {
    assert {} + {id} == {id};
    FlatListFindsFirstNonNull(h, h[id], {id});
    FirstNonNullAt(h[id], k);
  }

  lemma {:induction false} FirstNonNullAt(items: seq<Value>, k: nat)
    requires k < |items| && !items[k].Null? && forall j | 0 <= j < k :: items[j].Null?
    ensures FirstNonNull(items) == Element(items[k])
  {
    if k > 0 {
      FirstNonNullAt(items[1..], k - 1);
    }
  }

  /**
   * A list from which no list is reachable twice is keyed by the class of its first element in
   * pre-order that is neither `None` nor a list, or by `str` when it has none.
   */
  lemma NestedListKey(h: Heap, rank: map<NodeId, nat>, id: NodeId)
    requires WellFormed(h) && Ranked(h, rank) && id in rank && Distinct(ListsOf(h, rank, id))
    ensures var first := FirstNonNull(Flatten(h, rank, id));
      DumperKeyOf(h, ListRef(id)) == Success(ListKey(if first.Element? then TypeOf(first.v) else StrType))
  {
    FindInIsFirstInPreOrder(h, rank, id);
  }

  /** A list stored directly in itself after only `None`s cannot be keyed: DataError. */
  lemma SelfReferenceKeyFails(h: Heap, id: NodeId, k: nat)
    requires WellFormed(h) && id in h
    requires k < |h[id]| && h[id][k] == ListRef(id)
    requires forall j | 0 <= j < k :: h[id][j].Null?
    ensures DumperKeyOf(h, ListRef(id)) == Failure(DataError)
  {
    SelfReferenceIsCyclic(h, id, k);
  }

  /**
   * `get_dumper(obj, format)` succeeds on a cache with the given contents: the key can be
   * computed, and either it is cached, or there is a factory for the class of `obj` and, for a
   * list, the leaf's dumper is cached or has a factory.
   */
  predicate Dumpable(adapters: AdaptersMap, cache: map<DumperKey, Dumper>, h: Heap, obj: Value, format: Format)
    requires WellFormed(h) && ValueIn(h, obj)
  {
    var key := DumperKeyOf(h, obj);
    && key.Success?
    && (|| key.value in cache
        || ((format, TypeOf(obj)) in adapters.dumpers
            && (obj.ListRef? ==>
                  var leaf := TypeOf(LeafOf(h, obj.id));
                  TypeKey(leaf) in cache || (format, leaf) in adapters.dumpers)))
  }

  /** A cache that only grew keeps everything dumpable. */
  lemma DumpableGrows(adapters: AdaptersMap, c1: map<DumperKey, Dumper>, c2: map<DumperKey, Dumper>,
                      h: Heap, obj: Value, format: Format)
    requires WellFormed(h) && ValueIn(h, obj)
    requires Extends(c1, c2) && Dumpable(adapters, c1, h, obj, format)
    ensures Dumpable(adapters, c2, h, obj, format)
  {
  }

  /** Every parameter from position `from` on is `None` or dumpable with the caches `text`, `binary`. */
  predicate RestDumpable(adapters: AdaptersMap, text: map<DumperKey, Dumper>, binary: map<DumperKey, Dumper>,
                         h: Heap, params: seq<Value>, formats: seq<Format>, from: nat)
    requires WellFormed(h) && ItemsIn(h, params) && |params| <= |formats|
  {
    forall j | from <= j < |params| && !params[j].Null? ::
      assert params[j] in params;
      Dumpable(adapters, if formats[j].Text? then text else binary, h, params[j], formats[j])
  }

  /** Caches that only grew keep the rest of the parameters dumpable. */
  lemma RestDumpableGrows(adapters: AdaptersMap, t1: map<DumperKey, Dumper>, b1: map<DumperKey, Dumper>,
                          t2: map<DumperKey, Dumper>, b2: map<DumperKey, Dumper>,
                          h: Heap, params: seq<Value>, formats: seq<Format>, from: nat)
    requires WellFormed(h) && ItemsIn(h, params) && |params| <= |formats|
    requires Extends(t1, t2) && Extends(b1, b2)
    requires RestDumpable(adapters, t1, b1, h, params, formats, from)
    ensures RestDumpable(adapters, t2, b2, h, params, formats, from)
  {
    forall j | from <= j < |params| && !params[j].Null?
      ensures Dumpable(adapters, if formats[j].Text? then t2 else b2, h, params[j], formats[j])
    {
      assert params[j] in params;
      if formats[j].Text? {
        DumpableGrows(adapters, t1, t2, h, params[j], formats[j]);
      } else {
        DumpableGrows(adapters, b1, b2, h, params[j], formats[j]);
      }
    }
  }

  /** The key of `p` can be computed and has a dumper cached in the cache of `format`. */
  predicate KeyCached(text: map<DumperKey, Dumper>, binary: map<DumperKey, Dumper>, h: Heap, p: Value, format: Format)
    requires WellFormed(h) && ValueIn(h, p)
  {
    DumperKeyOf(h, p).Success? && DumperKeyOf(h, p).value in (if format.Text? then text else binary)
  }

  /** Every parameter before position `upto` is `None` or has its dumper cached. */
  predicate PrefixCached(text: map<DumperKey, Dumper>, binary: map<DumperKey, Dumper>,
                         h: Heap, params: seq<Value>, formats: seq<Format>, upto: nat)
    requires WellFormed(h) && ItemsIn(h, params) && upto <= |params| <= |formats|
  {
    forall j | 0 <= j < upto && !params[j].Null? ::
      assert params[j] in params;
      KeyCached(text, binary, h, params[j], formats[j])
  }

  /** Caches that only grew keep the earlier parameters cached; position `i` is added when cached. */
  lemma PrefixCachedStep(t1: map<DumperKey, Dumper>, b1: map<DumperKey, Dumper>,
                         t2: map<DumperKey, Dumper>, b2: map<DumperKey, Dumper>,
                         h: Heap, params: seq<Value>, formats: seq<Format>, i: nat)
    requires WellFormed(h) && ItemsIn(h, params) && i < |params| <= |formats|
    requires Extends(t1, t2) && Extends(b1, b2)
    requires PrefixCached(t1, b1, h, params, formats, i)
    requires !params[i].Null? ==> assert params[i] in params; KeyCached(t2, b2, h, params[i], formats[i])
    ensures PrefixCached(t2, b2, h, params, formats, i + 1)
  {
    forall j | 0 <= j < i + 1 && !params[j].Null?
      ensures assert params[j] in params; KeyCached(t2, b2, h, params[j], formats[j])
    {
      assert params[j] in params;
      if j < i {
        assert KeyCached(t1, b1, h, params[j], formats[j]);
      }
    }
  }

  /** The cache keys `get_dumper(obj, _)` may add: the key of `obj` and, for a list, that of its leaf. */
  function KeysFor(h: Heap, obj: Value): set<DumperKey>
    requires WellFormed(h) && ValueIn(h, obj)
  {
    match DumperKeyOf(h, obj)
    case Failure(_) => {}
    case Success(key) => if obj.ListRef? then {key, TypeKey(TypeOf(LeafOf(h, obj.id)))} else {key}
  }

  /** The cache keys `dump_sequence` may add in format `f`: those of its non-`None` parameters in `f`. */
  function ParamKeys(h: Heap, params: seq<Value>, formats: seq<Format>, f: Format): set<DumperKey>
    requires WellFormed(h)
  {
    set j, k | 0 <= j < |params| && j < |formats| && formats[j] == f && !params[j].Null?
                 && ValueIn(h, params[j]) && k in KeysFor(h, params[j]) :: k
  }

  /** The keys of parameter `i` are among those of the sequence in its format. */
  lemma ParamKeysCover(h: Heap, params: seq<Value>, formats: seq<Format>, i: nat)
    requires WellFormed(h) && ItemsIn(h, params) && i < |params| <= |formats| && !params[i].Null?
    ensures assert params[i] in params; KeysFor(h, params[i]) <= ParamKeys(h, params, formats, formats[i])
  {
    assert params[i] in params;
    forall k | k in KeysFor(h, params[i])
      ensures k in ParamKeys(h, params, formats, formats[i])
    {
    }
  }

  /** The OIDs of the columns in format `f`: the loader cache keys binding those columns may add. */
  function ColumnOids(types: seq<Oid>, formats: seq<Format>, f: Format): set<Oid> {
    set j | 0 <= j < |types| && j < |formats| && formats[j] == f :: types[j]
  }

  /** The factory `get_loader` uses for `oid`: the one registered for it, else the one for OID 0. */
  function LoaderFactory(adapters: AdaptersMap, oid: Oid, format: Format): Option<LoaderImpl> {
    if (format, oid) in adapters.loaders then Some(adapters.loaders[(format, oid)])
    else if (format, INVALID_OID) in adapters.loaders then Some(adapters.loaders[(format, INVALID_OID)])
    else None
  }

  /** With a loader registered for OID 0, every OID has a loader. */
  lemma FallbackCoversEveryOid(adapters: AdaptersMap, oid: Oid, format: Format)
    requires (format, INVALID_OID) in adapters.loaders
    ensures LoaderFactory(adapters, oid, format).Some?
    ensures (format, oid) !in adapters.loaders ==>
      LoaderFactory(adapters, oid, format) == Some(adapters.loaders[(format, INVALID_OID)])
  {
  }

  /**
   * The OID reported for a `None` parameter: `text` when the connection's server is older than
   * version 10 (which rejects unknown-typed parameters), OID 0 otherwise.
   */
  function UnknownOid(conn: Connection?): (r: Oid)
    ensures r == TEXT_OID <==> conn != null && conn.serverVersion < 100000
    ensures r != TEXT_OID ==> r == INVALID_OID
  {
    if conn != null && conn.serverVersion < 100000 then TEXT_OID else INVALID_OID
  }

  /** The adapters map a Transformer built on `context` uses. */
  function AdaptersOf(context: AdaptContext, globalAdapters: AdaptersMap): AdaptersMap {
    match context
    case ConnectionContext(c) => c.adapters
    case CursorContext(cur) => cur.adapters
    case TransformerContext(_, a) => a
    case _ => globalAdapters
  }

  /**
   * What `dump_sequence` produces for one parameter: no buffer and the unknown OID for `None`,
   * otherwise the bytes and OID of the dumper registered for its class and format.
   */
  predicate ParamDumped(adapters: AdaptersMap, unknownOid: Oid, p: Value, f: Format, buf: Option<Bytes>, oid: Oid) {
    if p.Null? then buf == None && oid == unknownOid
    else
      && (f, TypeOf(p)) in adapters.dumpers
      && buf == Some(adapters.dumpers[(f, TypeOf(p))].dump(p))
      && oid == adapters.dumpers[(f, TypeOf(p))].oid
  }

  /** The record `cells` can be decoded with `loaders`: every non-NULL cell has a loader. */
  predicate Decodable(loaders: seq<Loader>, cells: seq<Option<Bytes>>) {
    forall col | 0 <= col < |cells| && cells[col].Some? :: col < |loaders|
  }

  /** A record decoded column by column: NULL stays `None`, other cells go through their loader. */
  function Decode(loaders: seq<Loader>, cells: seq<Option<Bytes>>): seq<Value>
    requires Decodable(loaders, cells)
  {
    seq(|cells|, col requires 0 <= col < |cells| =>
      if cells[col].None? then Null else loaders[col].load(cells[col].value))
  }

  /** Loaders bound to every column of a result decode each of its rows. */
  lemma BoundLoadersDecodeEveryRow(loaders: seq<Loader>, res: PGResult, row: int)
    requires res.Valid() && |loaders| == res.nfields && 0 <= row < res.ntuples
    ensures Decodable(loaders, res.cells[row])
    ensures |Decode(loaders, res.cells[row])| == res.nfields
  {
    assert |res.cells[row]| == res.nfields;
  }

  /**
   * Every dumper cached for `format` was built by the factory registered for its key's base
   * class: same class, same OID, same `dump`.
   */
  ghost predicate DumpersBuilt(adapters: AdaptersMap, format: Format, cache: map<DumperKey, Dumper>) {
    forall k | k in cache ::
      && (format, k.BaseType()) in adapters.dumpers
      && cache[k].src == k.BaseType()
      && cache[k].oid == adapters.dumpers[(format, k.BaseType())].oid
      && cache[k].dump == adapters.dumpers[(format, k.BaseType())].dump
  }

  /**
   * Every loader cached for `format` was built, for the OID it is cached under, by the factory
   * `get_loader` picks for that OID.
   */
  ghost predicate LoadersBuilt(adapters: AdaptersMap, format: Format, cache: map<Oid, Loader>) {
    forall oid | oid in cache ::
      && LoaderFactory(adapters, oid, format).Some?
      && cache[oid].oid == oid
      && cache[oid].load == LoaderFactory(adapters, oid, format).value.load
  }

  class Transformer {
    const adapters: AdaptersMap
    const connection: Connection?
    /** `_unknown_oid` */
    const unknownOid: Oid

    /** `_dumpers_cache`, one map per format */
    var textDumpers: map<DumperKey, Dumper>
    var binaryDumpers: map<DumperKey, Dumper>
    /** `_loaders_cache`, one map per format */
    var textLoaders: map<Oid, Loader>
    var binaryLoaders: map<Oid, Loader>

    var pgresult: Option<PGResult>
    var nfields: int
    var ntuples: int
    /** `_row_loaders`: the loader of each column, in column order */
    var rowLoaders: seq<Loader>

    function DumperCache(format: Format): map<DumperKey, Dumper>
      reads this`textDumpers, this`binaryDumpers
    {
      if format.Text? then textDumpers else binaryDumpers
    }

    function LoaderCache(format: Format): map<Oid, Loader>
      reads this`textLoaders, this`binaryLoaders
    {
      if format.Text? then textLoaders else binaryLoaders
    }

    /** This Transformer as the context of the dumpers and loaders it instantiates. */
    function AsContext(): AdaptContext {
      TransformerContext(connection, adapters)
    }

    /** The bound result agrees with `nfields` and `ntuples`. */
    ghost predicate ResultValid()
      reads this`pgresult, this`nfields, this`ntuples
    {
      pgresult.Some? ==>
        && pgresult.value.Valid()
        && nfields == pgresult.value.nfields
        && ntuples == pgresult.value.ntuples
    }

    ghost predicate DumpersValid()
      reads this`textDumpers, this`binaryDumpers
    {
      DumpersBuilt(adapters, Format.Text, textDumpers) && DumpersBuilt(adapters, Format.Binary, binaryDumpers)
    }

    ghost predicate LoadersValid()
      reads this`textLoaders, this`binaryLoaders
    {
      LoadersBuilt(adapters, Format.Text, textLoaders) && LoadersBuilt(adapters, Format.Binary, binaryLoaders)
    }

    /**
     * The bound result agrees with the counts, and every cached dumper or loader was built by
     * the factory for its key.
     */
    ghost predicate Valid()
      reads this
    {
      ResultValid() && DumpersValid() && LoadersValid()
    }

    /** `ls[i]` is the cached loader of the OID and format of column `i`, for each `i < |ls|`. */
    ghost predicate LoadersFor(ls: seq<Loader>, types: seq<Oid>, formats: seq<Format>)
      reads this`textLoaders, this`binaryLoaders
      requires |ls| <= |types| <= |formats|
    {
      forall i | 0 <= i < |ls| :: types[i] in LoaderCache(formats[i]) && ls[i] == LoaderCache(formats[i])[types[i]]
    }

    /** `rowLoaders` holds, for each column, the cached loader of its OID and format. */
    ghost predicate BoundTo(types: seq<Oid>, formats: seq<Format>)
      reads this
      requires |types| <= |formats|
    {
      |rowLoaders| == |types| && LoadersFor(rowLoaders, types, formats)
    }

    /**
     * `Transformer(context)`: takes the adapters and connection of the context (the global
     * adapters without one) and fixes the OID reported for `None` parameters.
     */
    constructor (context: AdaptContext, globalAdapters: AdaptersMap)
      requires !context.OtherContext?
      ensures Valid()
      ensures adapters == AdaptersOf(context, globalAdapters)
      ensures connection == ConnectionFromContext(context).value
      ensures unknownOid == UnknownOid(connection)
      ensures textDumpers == map[] && binaryDumpers == map[]
      ensures textLoaders == map[] && binaryLoaders == map[]
      ensures pgresult == None && rowLoaders == []
    {
      var conn: Connection?;
      match context {
        case NoContext =>
          adapters := globalAdapters;
          conn := null;
        case ConnectionContext(c) =>
          adapters := c.adapters;
          conn := c;
        case CursorContext(cur) =>
          adapters := cur.adapters;
          conn := cur.connection;
        case TransformerContext(tc, a) =>
          adapters := a;
          conn := tc;
      }
      connection := conn;
      // a server older than version 10 rejects parameters of unknown type
      unknownOid := UnknownOid(conn);
      textDumpers, binaryDumpers := map[], map[];
      textLoaders, binaryLoaders := map[], map[];
      rowLoaders := [];
      pgresult := None;
      nfields, ntuples := 0, 0;
    }

    method PutDumper(format: Format, key: DumperKey, d: Dumper)
      modifies this`textDumpers, this`binaryDumpers
      ensures DumperCache(format) == old(DumperCache(format))[key := d]
      ensures DumperCache(format.Other()) == old(DumperCache(format.Other()))
    {
      if format.Text? {
        textDumpers := textDumpers[key := d];
      } else {
        binaryDumpers := binaryDumpers[key := d];
      }
    }

    method PutLoader(format: Format, oid: Oid, l: Loader)
      modifies this`textLoaders, this`binaryLoaders
      ensures LoaderCache(format) == old(LoaderCache(format))[oid := l]
      ensures LoaderCache(format.Other()) == old(LoaderCache(format.Other()))
    {
      if format.Text? {
        textLoaders := textLoaders[oid := l];
      } else {
        binaryLoaders := binaryLoaders[oid := l];
      }
    }

    /**
     * `_find_list_element`: the depth-first search of the list `id`, with the identities in
     * `seen` already visited; returns what it found and the visited set it leaves.
     */
    method FindListElement(heap: Heap, id: NodeId, seen: set<NodeId>) returns (found: Found, seen': set<NodeId>)
      requires WellFormed(heap) && id in heap
      ensures Search(found, seen') == FindIn(heap, id, seen)
      decreases heap.Keys - seen
    {
      if id in seen {
        return Cyclic, seen;
      }
      seen' := seen + {id};
      var items := heap[id];
      var i := 0;
      while i < |items|
        invariant 0 <= i <= |items|
        invariant seen + {id} <= seen'
        invariant FindItems(heap, items[i..], seen') == FindIn(heap, id, seen)
      {
        var it := items[i];
        assert items[i..][0] == it && items[i..][1..] == items[i + 1..];
        if it.ListRef? {
          assert it in heap[id];
          var sub, s := FindListElement(heap, it.id, seen');
          seen' := s;
          if !sub.NoElement? {
            return sub, seen';
          }
        } else if !it.Null? {
          return Element(it), seen';
        }
        i := i + 1;
      }
      assert items[i..] == [];
      found := NoElement;
    }

    /**
     * `get_dumper` for a value that is not a list, whose key is its class `cls`: the cached
     * dumper if there is one; otherwise a new instance from the factory for `cls`, cached in this
     * format only; ProgrammingError, with the caches unchanged, when there is no factory.
     */
    method GetTypeDumper(cls: PyType, format: Format) returns (r: Result<Dumper, Error>)
      requires DumpersValid()
      modifies this`textDumpers, this`binaryDumpers
      ensures DumpersValid()
      ensures DumperCache(format.Other()) == old(DumperCache(format.Other()))
      ensures TypeKey(cls) in old(DumperCache(format)) ==>
        r == Success(old(DumperCache(format))[TypeKey(cls)]) && DumperCache(format) == old(DumperCache(format))
      ensures TypeKey(cls) !in old(DumperCache(format)) && (format, cls) !in adapters.dumpers ==>
        r == Failure(ProgrammingError) && DumperCache(format) == old(DumperCache(format))
      ensures TypeKey(cls) !in old(DumperCache(format)) && (format, cls) in adapters.dumpers ==>
        && r.Success? && fresh(r.value)
        && r.value.context == AsContext() && r.value.connection == connection && r.value.sub == null
        && DumperCache(format) == old(DumperCache(format))[TypeKey(cls) := r.value]
    {
      var key := TypeKey(cls);
      if key in DumperCache(format) {
        return Success(DumperCache(format)[key]);
      }
      if (format, cls) !in adapters.dumpers {
        return Failure(ProgrammingError);
      }
      var d := new Dumper(cls, adapters.dumpers[(format, cls)], AsContext());
      PutDumper(format, key, d);
      return Success(d);
    }

    /**
     * `get_dumper` for the list `id`, whose key is `(list, class of its leaf)`: DataError when
     * the element search meets a list twice; the cached dumper if there is one; otherwise a new
     * instance from the factory for `list`, cached in this format, which is then given the
     * dumper of the leaf, resolved afterwards in the same format.
     */
    method GetListDumper(heap: Heap, id: NodeId, format: Format) returns (r: Result<Dumper, Error>)
      requires DumpersValid() && WellFormed(heap) && id in heap
      modifies this`textDumpers, this`binaryDumpers
      ensures DumpersValid()
      ensures DumperCache(format.Other()) == old(DumperCache(format.Other()))
      ensures FindIn(heap, id, {}).found.Cyclic? ==>
        r == Failure(DataError) && DumperCache(format) == old(DumperCache(format))
      ensures var key := ListKey(TypeOf(LeafOf(heap, id)));
        !FindIn(heap, id, {}).found.Cyclic? && key in old(DumperCache(format)) ==>
          r == Success(old(DumperCache(format))[key]) && DumperCache(format) == old(DumperCache(format))
      ensures var key := ListKey(TypeOf(LeafOf(heap, id)));
        !FindIn(heap, id, {}).found.Cyclic? && key !in old(DumperCache(format)) && (format, ListType) !in adapters.dumpers ==>
          r == Failure(ProgrammingError) && DumperCache(format) == old(DumperCache(format))
      ensures var key := ListKey(TypeOf(LeafOf(heap, id)));
        !FindIn(heap, id, {}).found.Cyclic? && key !in old(DumperCache(format)) && (format, ListType) in adapters.dumpers ==>
          && key in DumperCache(format)
          && var d := DumperCache(format)[key];
          && fresh(d) && d.context == AsContext() && d.connection == connection
          && var leaf := TypeKey(TypeOf(LeafOf(heap, id)));
          && (leaf in old(DumperCache(format)) ==>
                && r == Success(d)
                && DumperCache(format) == old(DumperCache(format))[key := d]
                && d.sub == old(DumperCache(format))[leaf])
          && (leaf !in old(DumperCache(format)) && (format, leaf.cls) !in adapters.dumpers ==>
                && r == Failure(ProgrammingError)
                && DumperCache(format) == old(DumperCache(format))[key := d]
                && d.sub == null)
          && (leaf !in old(DumperCache(format)) && (format, leaf.cls) in adapters.dumpers ==>
                && leaf in DumperCache(format)
                && var sd := DumperCache(format)[leaf];
                && fresh(sd) && sd != d
                && r == Success(d)
                && DumperCache(format) == old(DumperCache(format))[key := d][leaf := sd]
                && d.sub == sd)
    {
      var found, _ := FindListElement(heap, id, {});
      var subobj := EmptyString;
      match found {
        case Cyclic =>
          return Failure(DataError);
        case NoElement =>
          subobj := EmptyString;
        case Element(v) =>
          subobj := v;
      }
      assert subobj == LeafOf(heap, id);
      var key := ListKey(TypeOf(subobj));
      if key in DumperCache(format) {
        return Success(DumperCache(format)[key]);
      }
      if (format, ListType) !in adapters.dumpers {
        return Failure(ProgrammingError);
      }
      var d := new Dumper(ListType, adapters.dumpers[(format, ListType)], AsContext());
      PutDumper(format, key, d);
      var sub := GetTypeDumper(TypeOf(subobj), format);
      if sub.Failure? {
        return sub;
      }
      d.SetSubDumper(sub.value);
      return Success(d);
    }

    /**
     * `get_dumper(obj, format)`: the dumper cached for the key of `obj` in this format, creating
     * and caching it (and for a list the dumper of its leaf) from the registered factories when
     * missing. It succeeds exactly when `obj` is dumpable with the cache as it was; on success the
     * result is the entry for the key. The other format's cache is never touched, no entry is
     * ever replaced, and a key that cannot be computed changes nothing.
     */
    method GetDumper(heap: Heap, obj: Value, format: Format) returns (r: Result<Dumper, Error>)
      requires DumpersValid() && WellFormed(heap) && ValueIn(heap, obj)
      modifies this`textDumpers, this`binaryDumpers
      ensures DumpersValid()
      ensures DumperCache(format.Other()) == old(DumperCache(format.Other()))
      ensures Extends(old(DumperCache(format)), DumperCache(format))
      ensures r.Success? <==> Dumpable(adapters, old(DumperCache(format)), heap, obj, format)
      ensures r.Failure? ==> (r.error == DataError <==> DumperKeyOf(heap, obj).Failure?)
      ensures r.Failure? ==> r.error == DataError || r.error == ProgrammingError
      ensures DumperKeyOf(heap, obj).Failure? ==> DumperCache(format) == old(DumperCache(format))
      ensures DumperCache(format).Keys <= old(DumperCache(format)).Keys + KeysFor(heap, obj)
      ensures r.Failure? && DumperKeyOf(heap, obj).Success? ==>
        var key := DumperKeyOf(heap, obj).value;
        || DumperCache(format) == old(DumperCache(format))
        || (&& obj.ListRef? && key !in old(DumperCache(format)) && key in DumperCache(format)
            && DumperCache(format) == old(DumperCache(format))[key := DumperCache(format)[key]])
      ensures r.Success? ==>
        var key := DumperKeyOf(heap, obj).value;
        && key in DumperCache(format) && r.value == DumperCache(format)[key]
        && (key in old(DumperCache(format)) ==> DumperCache(format) == old(DumperCache(format)))
        && (key !in old(DumperCache(format)) ==> fresh(r.value) && r.value.context == AsContext())
    {
      if !obj.ListRef? {
        r := GetTypeDumper(TypeOf(obj), format);
      } else {
        r := GetListDumper(heap, obj.id, format);
      }
    }

    /**
     * One step of `dump_sequence` for a parameter that is not `None`: the bytes and OID of the
     * dumper `get_dumper` resolves for it.
     */
    method DumpParam(heap: Heap, param: Value, format: Format) returns (r: Result<(Bytes, Oid), Error>)
      requires DumpersValid() && WellFormed(heap) && ValueIn(heap, param) && !param.Null?
      modifies this`textDumpers, this`binaryDumpers
      ensures DumpersValid()
      ensures Extends(old(textDumpers), textDumpers) && Extends(old(binaryDumpers), binaryDumpers)
      ensures format.Text? ==>
        textDumpers.Keys <= old(textDumpers).Keys + KeysFor(heap, param) && binaryDumpers == old(binaryDumpers)
      ensures format.Binary? ==>
        binaryDumpers.Keys <= old(binaryDumpers).Keys + KeysFor(heap, param) && textDumpers == old(textDumpers)
      ensures r.Success? <==> Dumpable(adapters, old(DumperCache(format)), heap, param, format)
      ensures r.Failure? ==> r.error == DataError || r.error == ProgrammingError
      ensures r.Success? ==>
        ParamDumped(adapters, unknownOid, param, format, Some(r.value.0), r.value.1) && KeyCached(textDumpers, binaryDumpers, heap, param, format)
    {
      var dumper := GetDumper(heap, param, format);
      if dumper.Failure? {
        return Failure(dumper.error);
      }
      var d := dumper.value;
      return Success((d.dump(param), d.oid));
    }

    /**
     * `dump_sequence(params, formats)`: for each parameter, no buffer and the unknown OID when it
     * is `None`, otherwise the bytes and OID of the dumper resolved for it in its format.
     */
    method DumpSequence(heap: Heap, params: seq<Value>, formats: seq<Format>)
      returns (r: Result<(seq<Option<Bytes>>, seq<Oid>), Error>)
      requires DumpersValid() && WellFormed(heap) && ItemsIn(heap, params) && |params| <= |formats|
      modifies this`textDumpers, this`binaryDumpers
      ensures DumpersValid()
      ensures Extends(old(textDumpers), textDumpers) && Extends(old(binaryDumpers), binaryDumpers)
      ensures textDumpers.Keys <= old(textDumpers).Keys + ParamKeys(heap, params, formats, Format.Text)
      ensures binaryDumpers.Keys <= old(binaryDumpers).Keys + ParamKeys(heap, params, formats, Format.Binary)
      ensures RestDumpable(adapters, old(textDumpers), old(binaryDumpers), heap, params, formats, 0) ==> r.Success?
      ensures r.Failure? ==> r.error == DataError || r.error == ProgrammingError
      ensures r.Success? ==>
        && |r.value.0| == |params| && |r.value.1| == |params|
        && forall i | 0 <= i < |params| ::
             ParamDumped(adapters, unknownOid, params[i], formats[i], r.value.0[i], r.value.1[i])
      ensures r.Success? ==> PrefixCached(textDumpers, binaryDumpers, heap, params, formats, |params|)
    {
      var n := |params|;
      var ps: seq<Option<Bytes>> := seq(n, _ => None);
      var ts: seq<Oid> := seq(n, _ => unknownOid);
      ghost var allDumpable := RestDumpable(adapters, textDumpers, binaryDumpers, heap, params, formats, 0);
      var i := 0;
      while i < n
        invariant 0 <= i <= n
        invariant DumpersValid()
        invariant |ps| == n && |ts| == n
        invariant Extends(old(textDumpers), textDumpers) && Extends(old(binaryDumpers), binaryDumpers)
        invariant textDumpers.Keys <= old(textDumpers).Keys + ParamKeys(heap, params, formats, Format.Text)
        invariant binaryDumpers.Keys <= old(binaryDumpers).Keys + ParamKeys(heap, params, formats, Format.Binary)
        invariant forall j | i <= j < n :: ps[j] == None && ts[j] == unknownOid
        invariant forall j | 0 <= j < i :: ParamDumped(adapters, unknownOid, params[j], formats[j], ps[j], ts[j])
        invariant PrefixCached(textDumpers, binaryDumpers, heap, params, formats, i)
        invariant allDumpable ==> RestDumpable(adapters, textDumpers, binaryDumpers, heap, params, formats, i)
      {
        var param := params[i];
        assert param in params;
        ghost var textBefore, binaryBefore := textDumpers, binaryDumpers;
        if !param.Null? {
          ParamKeysCover(heap, params, formats, i);
          var dumped := DumpParam(heap, param, formats[i]);
          if dumped.Failure? {
            return Failure(dumped.error);
          }
          ps := ps[i := Some(dumped.value.0)];
          ts := ts[i := dumped.value.1];
          if allDumpable {
            RestDumpableGrows(adapters, textBefore, binaryBefore, textDumpers, binaryDumpers,
                              heap, params, formats, i);
          }
        }
        PrefixCachedStep(textBefore, binaryBefore, textDumpers, binaryDumpers, heap, params, formats, i);
        i := i + 1;
      }
      return Success((ps, ts));
    }

    /**
     * `get_loader(oid, format)`: the cached loader if there is one; otherwise a new instance from
     * the factory for `oid`, or else for OID 0, cached under the requested OID in this format
     * only; InterfaceError, with the caches unchanged, when neither factory exists.
     */
    method GetLoader(oid: Oid, format: Format) returns (r: Result<Loader, Error>)
      requires LoadersValid()
      modifies this`textLoaders, this`binaryLoaders
      ensures LoadersValid()
      ensures LoaderCache(format.Other()) == old(LoaderCache(format.Other()))
      ensures Extends(old(LoaderCache(format)), LoaderCache(format))
      ensures r.Success? <==> LoaderFactory(adapters, oid, format).Some?
      ensures r.Failure? ==> r == Failure(InterfaceError) && LoaderCache(format) == old(LoaderCache(format))
      ensures oid in old(LoaderCache(format)) ==>
        r == Success(old(LoaderCache(format))[oid]) && LoaderCache(format) == old(LoaderCache(format))
      ensures oid !in old(LoaderCache(format)) && r.Success? ==>
        && fresh(r.value)
        && r.value.context == AsContext()
        && LoaderCache(format) == old(LoaderCache(format))[oid := r.value]
      ensures r.Success? ==>
        && oid in LoaderCache(format) && LoaderCache(format)[oid] == r.value
        && r.value.oid == oid
        && r.value.load == LoaderFactory(adapters, oid, format).value.load
    {
      if oid in LoaderCache(format) {
        return Success(LoaderCache(format)[oid]);
      }
      var factory: LoaderImpl;
      if (format, oid) in adapters.loaders {
        factory := adapters.loaders[(format, oid)];
      } else if (format, INVALID_OID) in adapters.loaders {
        factory := adapters.loaders[(format, INVALID_OID)];
      } else {
        return Failure(InterfaceError);
      }
      var loader := new Loader(oid, factory, AsContext());
      PutLoader(format, oid, loader);
      return Success(loader);
    }

    /**
     * The loop the `pgresult` setter and `set_row_types` share: `get_loader` for each column in
     * order, collecting the loaders; it stops at the first column with no loader and returns the
     * loaders collected before it with the InterfaceError.
     */
    method ColumnLoaders(types: seq<Oid>, formats: seq<Format>) returns (rc: seq<Loader>, o: Outcome<Error>)
      requires LoadersValid() && |types| <= |formats|
      modifies this`textLoaders, this`binaryLoaders
      ensures LoadersValid()
      ensures Extends(old(textLoaders), textLoaders) && Extends(old(binaryLoaders), binaryLoaders)
      ensures textLoaders.Keys <= old(textLoaders).Keys + ColumnOids(types, formats, Format.Text)
      ensures binaryLoaders.Keys <= old(binaryLoaders).Keys + ColumnOids(types, formats, Format.Binary)
      ensures |rc| <= |types| && LoadersFor(rc, types, formats)
      ensures o.Pass? <==> forall i | 0 <= i < |types| :: LoaderFactory(adapters, types[i], formats[i]).Some?
      ensures o.Pass? ==> |rc| == |types|
      ensures o.Fail? ==>
        && o.error == InterfaceError && |rc| < |types|
        && LoaderFactory(adapters, types[|rc|], formats[|rc|]).None?
    {
      rc := [];
      var i := 0;
      while i < |types|
        invariant 0 <= i <= |types| && |rc| == i
        invariant LoadersValid()
        invariant Extends(old(textLoaders), textLoaders) && Extends(old(binaryLoaders), binaryLoaders)
        invariant textLoaders.Keys <= old(textLoaders).Keys + ColumnOids(types, formats, Format.Text)
        invariant binaryLoaders.Keys <= old(binaryLoaders).Keys + ColumnOids(types, formats, Format.Binary)
        invariant LoadersFor(rc, types, formats)
        invariant forall j | 0 <= j < i :: LoaderFactory(adapters, types[j], formats[j]).Some?
      {
        var loader := GetLoader(types[i], formats[i]);
        if loader.Failure? {
          return rc, Fail(loader.error);
        }
        rc := rc + [loader.value];
        i := i + 1;
      }
      return rc, Pass;
    }

    /**
     * The `pgresult` setter: binds `result` and rebuilds `rowLoaders` from scratch, one loader per
     * column. Unbinding zeroes the counts. If a column has no loader, the InterfaceError leaves
     * the result bound and `rowLoaders` holding the loaders of the columns before it.
     */
    method SetPgResult(result: Option<PGResult>) returns (o: Outcome<Error>)
      requires Valid() && (result.Some? ==> result.value.Valid())
      modifies this`pgresult, this`rowLoaders, this`nfields, this`ntuples
      modifies this`textLoaders, this`binaryLoaders
      ensures Valid()
      ensures pgresult == result
      ensures Extends(old(textLoaders), textLoaders) && Extends(old(binaryLoaders), binaryLoaders)
      ensures result.Some? ==>
        && textLoaders.Keys <= old(textLoaders).Keys + ColumnOids(result.value.ftypes, result.value.fformats, Format.Text)
        && binaryLoaders.Keys <= old(binaryLoaders).Keys + ColumnOids(result.value.ftypes, result.value.fformats, Format.Binary)
      ensures result.None? ==>
        && o == Pass && nfields == 0 && ntuples == 0 && rowLoaders == []
        && textLoaders == old(textLoaders) && binaryLoaders == old(binaryLoaders)
      ensures result.Some? ==>
        var res := result.value;
        && nfields == res.nfields && ntuples == res.ntuples
        && (o.Pass? <==> forall i | 0 <= i < res.nfields :: LoaderFactory(adapters, res.ftypes[i], res.fformats[i]).Some?)
        && (o.Pass? ==> BoundTo(res.ftypes, res.fformats))
        && (o.Fail? ==>
              && o.error == InterfaceError
              && |rowLoaders| < res.nfields
              && LoadersFor(rowLoaders, res.ftypes, res.fformats)
              && LoaderFactory(adapters, res.ftypes[|rowLoaders|], res.fformats[|rowLoaders|]).None?)
    {
      pgresult := result;
      if result.None? {
        rowLoaders := [];
        nfields, ntuples := 0, 0;
        return Pass;
      }
      var res := result.value;
      nfields := res.nfields;
      ntuples := res.ntuples;
      // the setter appends to the list it has already stored, so a failure keeps the prefix
      rowLoaders, o := ColumnLoaders(res.ftypes, res.fformats);
    }

    /**
     * `set_row_types(types, formats)`: replaces `rowLoaders` by the loaders of the given columns.
     * If a column has no loader, the InterfaceError leaves `rowLoaders` as it was.
     */
    method SetRowTypes(types: seq<Oid>, formats: seq<Format>) returns (o: Outcome<Error>)
      requires Valid() && |types| <= |formats|
      modifies this`rowLoaders, this`textLoaders, this`binaryLoaders
      ensures Valid()
      ensures Extends(old(textLoaders), textLoaders) && Extends(old(binaryLoaders), binaryLoaders)
      ensures o.Pass? <==> forall i | 0 <= i < |types| :: LoaderFactory(adapters, types[i], formats[i]).Some?
      ensures textLoaders.Keys <= old(textLoaders).Keys + ColumnOids(types, formats, Format.Text)
      ensures binaryLoaders.Keys <= old(binaryLoaders).Keys + ColumnOids(types, formats, Format.Binary)
      ensures o.Pass? ==> BoundTo(types, formats)
      ensures o.Fail? ==> o.error == InterfaceError && rowLoaders == old(rowLoaders)
    {
      var rc;
      rc, o := ColumnLoaders(types, formats);
      if o.Pass? {
        rowLoaders := rc;
      }
    }

    /**
     * The loop `load_rows` and `load_row` run over one record: each non-NULL cell through the
     * loader of its column (IndexError when that column has none), NULL cells left `None`.
     */
    method LoadRecord(cells: seq<Option<Bytes>>) returns (r: Result<seq<Value>, Error>)
      ensures r.Success? <==> Decodable(rowLoaders, cells)
      ensures r.Failure? ==> r.error == IndexError
      ensures r.Success? ==> r.value == Decode(rowLoaders, cells)
    {
      var record: seq<Value> := seq(|cells|, _ => Null);
      var col := 0;
      while col < |cells|
        invariant 0 <= col <= |cells| && |record| == |cells|
        invariant forall c | 0 <= c < col && cells[c].Some? :: c < |rowLoaders|
        invariant forall c | 0 <= c < col ::
          record[c] == if cells[c].None? then Null else rowLoaders[c].load(cells[c].value)
        invariant forall c | col <= c < |cells| :: record[c] == Null
      {
        var val := cells[col];
        if val.Some? {
          if col >= |rowLoaders| {
            return Failure(IndexError);
          }
          record := record[col := rowLoaders[col].load(val.value)];
        }
        col := col + 1;
      }
      return Success(record);
    }

    /**
     * `load_rows(row0, row1)`: InterfaceError without a bound result or unless both bounds lie in
     * `[0, ntuples]`; otherwise the decoded rows `row0 .. row1 - 1`, none when `row1 <= row0`.
     */
    method LoadRows(row0: int, row1: int) returns (r: Result<seq<seq<Value>>, Error>)
      requires Valid()
      ensures pgresult.None? ==> r == Failure(InterfaceError)
      ensures pgresult.Some? && !(0 <= row0 <= ntuples && 0 <= row1 <= ntuples) ==> r == Failure(InterfaceError)
      ensures pgresult.Some? && 0 <= row0 <= ntuples && 0 <= row1 <= ntuples ==>
        var res := pgresult.value;
        && (r.Success? <==> forall row | row0 <= row < row1 :: Decodable(rowLoaders, res.cells[row]))
        && (r.Failure? ==> r.error == IndexError)
        && (r.Success? ==>
              && |r.value| == (if row0 <= row1 then row1 - row0 else 0)
              && forall k | 0 <= k < |r.value| ::
                   |r.value[k]| == nfields && r.value[k] == Decode(rowLoaders, res.cells[row0 + k]))
    {
      if pgresult.None? {
        return Failure(InterfaceError);
      }
      var res := pgresult.value;
      if !(0 <= row0 <= ntuples && 0 <= row1 <= ntuples) {
        return Failure(InterfaceError);
      }
      assert res.Valid() && |res.cells| == ntuples;
      var n := if row0 <= row1 then row1 - row0 else 0;
      var records: seq<seq<Value>> := seq(n, _ => []);
      var row := row0;
      while row < row1
        invariant row0 <= row <= row0 + n <= ntuples
        invariant |records| == n && |res.cells| == ntuples
        invariant forall k | row0 <= k < row :: Decodable(rowLoaders, res.cells[k])
        invariant forall k | 0 <= k < row - row0 ::
          |records[k]| == nfields && records[k] == Decode(rowLoaders, res.cells[row0 + k])
      {
        var record := LoadRecord(res.cells[row]);
        if record.Failure? {
          return Failure(record.error);
        }
        records := records[row - row0 := record.value];
        row := row + 1;
      }
      return Success(records);
    }

    /**
     * `load_row(row)`: `None`, not an error, without a bound result or for a row outside
     * `[0, ntuples)`; otherwise the decoded row.
     */
    method LoadRow(row: int) returns (r: Result<Option<seq<Value>>, Error>)
      requires Valid()
      ensures pgresult.None? || !(0 <= row < ntuples) ==> r == Success(None)
      ensures pgresult.Some? && 0 <= row < ntuples ==>
        var cells := pgresult.value.cells[row];
        && (r.Success? <==> Decodable(rowLoaders, cells))
        && (r.Failure? ==> r.error == IndexError)
        && (r.Success? ==> r.value.Some? && |r.value.value| == nfields && r.value.value == Decode(rowLoaders, cells))
    {
      if pgresult.None? {
        return Success(None);
      }
      if !(0 <= row < ntuples) {
        return Success(None);
      }
      var record := LoadRecord(pgresult.value.cells[row]);
      if record.Failure? {
        return Failure(record.error);
      }
      return Success(Some(record.value));
    }

    /**
     * `load_sequence(record)`: ProgrammingError unless the record has one cell per row loader;
     * otherwise the record decoded position by position, NULL cells left `None`.
     */
    function LoadSequence(record: seq<Option<Bytes>>): (r: Result<seq<Value>, Error>)
      reads this
      ensures r.Failure? <==> |record| != |rowLoaders|
      ensures r.Failure? ==> r.error == ProgrammingError
      ensures r.Success? ==>
        && |r.value| == |record|
        && forall i | 0 <= i < |record| ::
             (record[i].None? ==> r.value[i] == Null)
             && (record[i].Some? ==> r.value[i] == rowLoaders[i].load(record[i].value))
    {
      if |rowLoaders| != |record| then Failure(ProgrammingError)
      else Success(Decode(rowLoaders, record))
    }

    /** With loaders bound to every column, `load_sequence` of a row decodes it as `load_row` does. */
    lemma LoadSequenceAgreesWithLoadRow(row: int)
      requires Valid() && pgresult.Some? && 0 <= row < ntuples && |rowLoaders| == nfields
      ensures Decodable(rowLoaders, pgresult.value.cells[row])
      ensures LoadSequence(pgresult.value.cells[row]) == Success(Decode(rowLoaders, pgresult.value.cells[row]))
    {
      BoundLoadersDecodeEveryRow(rowLoaders, pgresult.value, row);
    }
  }

  /**
   * Two `get_dumper` calls on values with the same key and format return the same instance;
   * a call in the other format on a key that format has not cached returns a new one.
   */
  method SameKeySameDumper(t: Transformer, heap: Heap, a: Value, b: Value, format: Format)
    returns (ra: Result<Dumper, Error>, rb: Result<Dumper, Error>, rc: Result<Dumper, Error>)
    requires t.Valid() && WellFormed(heap) && ValueIn(heap, a) && ValueIn(heap, b)
    requires DumperKeyOf(heap, a) == DumperKeyOf(heap, b)
    modifies t`textDumpers, t`binaryDumpers
    ensures ra.Success? ==> rb == ra
    ensures ra.Success? && rc.Success? && DumperKeyOf(heap, a).Success?
            && DumperKeyOf(heap, a).value !in old(t.DumperCache(format.Other())) ==>
      rc.value != ra.value
  {
    ra := t.GetDumper(heap, a, format);
    rb := t.GetDumper(heap, b, format);
    rc := t.GetDumper(heap, a, format.Other());
  }
}
