/**
 * The vocabulary shared by the Transformer and the registration API: wire formats, OIDs,
 * application values, the factories an adapters map hands out, the result record that
 * libpq produces, and the contexts (connection, cursor, transformer) adaptation runs in.
 */
module Proto {
  import opened Wrappers

  /** Wire encoding selector (`pq.Format`): TEXT = 0, BINARY = 1. */
  datatype Format = Text | Binary {
    /** The other format: the cache that an operation on this format must leave alone. */
    function Other(): Format {
      if Text? then Binary else Text
    }
  }

  /** Type identifier from the server's type catalogue. */
  type Oid = int

  /** OID 0: "no type", used when the type of a parameter is left to the server. */
  const INVALID_OID: Oid := 0
  /** OID of the built-in `text` type. */
  const TEXT_OID: Oid := 25

  type Bytes = seq<bv8>

  /** Errors the core raises, by kind (the message text is not modelled). */
  datatype Error =
    | ProgrammingError
    | InterfaceError
    | DataError
    | TypeError
    | AttributeError
    | IndexError

  /**
   * The runtime class of an application value. `ListType` is exactly Python's `list`;
   * every other class, a subclass of `list` included, is a `Class`.
   */
  datatype PyType = NoneType | ListType | Class(name: string)

  const StrType: PyType := Class("str")

  /** Identity of a list object (Python's `id()`). */
  type NodeId = nat

  /**
   * An application value: `None`, an object of some non-`list` class (`cls` names it, `text`
   * stands for its contents), or a reference to a `list` object in the heap.
   */
  datatype Value = Null | Scalar(cls: string, text: string) | ListRef(id: NodeId)

  /** The empty string `""`, the placeholder element of a list with no non-`None` leaf. */
  const EmptyString: Value := Scalar("str", "")

  /** `type(v)` */
  function TypeOf(v: Value): PyType {
    match v
    case Null => NoneType
    case Scalar(cls, _) => Class(cls)
    case ListRef(_) => ListType
  }

  /** The list objects reachable from the values at hand: node id to its elements, in order. */
  type Heap = map<NodeId, seq<Value>>

  /** A list reference in `v` points to a list of the heap. */
  predicate ValueIn(h: Heap, v: Value) {
    v.ListRef? ==> v.id in h
  }

  predicate ItemsIn(h: Heap, items: seq<Value>) {
    forall v | v in items :: ValueIn(h, v)
  }

  /** Every list reference stored in a list of the heap points to a list of the heap. */
  predicate WellFormed(h: Heap) {
    forall n | n in h :: ItemsIn(h, h[n])
  }

  /** What a dumper factory produces: the OID its dumpers report and their (opaque) `dump`. */
  datatype DumperImpl = DumperImpl(oid: Oid, dump: Value -> Bytes)

  /** What a loader factory produces: the (opaque) `load` of its loaders. */
  datatype LoaderImpl = LoaderImpl(load: Bytes -> Value)

  /**
   * The effective adapters map of a context, reduced to the two lookups the Transformer makes:
   * a partial map from (format, class) to a dumper factory, and from (format, OID) to a loader
   * factory. A missing key is `get_dumper`/`get_loader` answering `None`.
   */
  datatype AdaptersMap = AdaptersMap(
    dumpers: map<(Format, PyType), DumperImpl>,
    loaders: map<(Format, Oid), LoaderImpl>)

  /**
   * A class or callable passed to a `register` method, or an object that is neither. A class is
   * callable; `derivesFromBase` says whether it is a subclass of `Dumper` (resp. `Loader`).
   */
  datatype Codec<+F> =
    | CodecClass(impl: F, derivesFromBase: bool)
    | CodecFunction(impl: F)
    | NotCallable(desc: string)
  {
    predicate Callable() {
      !NotCallable?
    }

    /** The check `register` applies: callable, or a subclass of the base codec class. */
    predicate Acceptable() {
      Callable() || (CodecClass? && derivesFromBase)
    }
  }

  type DumperType = Codec<DumperImpl>
  type LoaderType = Codec<LoaderImpl>

  /** `DumpersMap`: (class, format) to the registered dumper. */
  type DumpersMap = map<(PyType, Format), DumperType>
  /** `LoadersMap`: (OID, format) to the registered loader. */
  type LoadersMap = map<(int, Format), LoaderType>

  /** A Python object passed where `register` expects a class or an OID. */
  datatype PyObject = ClassObject(cls: PyType) | IntObject(n: int) | OtherObject(desc: string)

  /**
   * A query result as libpq reports it: column count, row count, per-column OID and format,
   * and per-cell raw bytes, `None` for SQL NULL.
   */
  datatype PGResult = PGResult(
    nfields: int,
    ntuples: int,
    ftypes: seq<Oid>,
    fformats: seq<Format>,
    cells: seq<seq<Option<Bytes>>>)
  {
    /** The shape libpq guarantees. */
    predicate Valid() {
      && 0 <= nfields && 0 <= ntuples
      && |ftypes| == nfields && |fformats| == nfields
      && |cells| == ntuples
      && forall row | 0 <= row < ntuples :: |cells[row]| == nfields
    }
  }

  /** A connection: the server version it reports and its adapters and registration maps. */
  class Connection {
    const serverVersion: int
    const adapters: AdaptersMap
    var dumpers: DumpersMap
    var loaders: LoadersMap

    constructor (serverVersion: int, adapters: AdaptersMap)
      ensures this.serverVersion == serverVersion && this.adapters == adapters
      ensures dumpers == map[] && loaders == map[]
    {
      this.serverVersion := serverVersion;
      this.adapters := adapters;
      dumpers, loaders := map[], map[];
    }
  }

  /** A cursor: the connection it belongs to and its own adapters and registration maps. */
  class Cursor {
    const connection: Connection
    const adapters: AdaptersMap
    var dumpers: DumpersMap
    var loaders: LoadersMap

    constructor (connection: Connection, adapters: AdaptersMap)
      ensures this.connection == connection && this.adapters == adapters
      ensures dumpers == map[] && loaders == map[]
    {
      this.connection := connection;
      this.adapters := adapters;
      dumpers, loaders := map[], map[];
    }
  }

  /**
   * An `AdaptContext`: nothing, a connection, a cursor, a Transformer (represented by the two
   * attributes read from it, its connection and its adapters map), or any other object.
   */
  datatype AdaptContext =
    | NoContext
    | ConnectionContext(conn: Connection)
    | CursorContext(cursor: Cursor)
    | TransformerContext(connection: Connection?, adapters: AdaptersMap)
    | OtherContext(desc: string)
  {
    /** The objects whose registration maps a `register` call on this context may write. */
    function Owners(): set<object> {
      match this
      case ConnectionContext(c) => {c}
      case CursorContext(cur) => {cur}
      case _ => {}
    }
  }
}
