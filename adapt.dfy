/**
 * The entry point of the adaptation system: the `Dumper` and `Loader` base classes, their
 * registration class methods and decorators, and the connection lookup both constructors use.
 */
module Adapt {
  import opened Wrappers
  import opened Proto

  /**
   * `_connection_from_context`: no context has no connection, a connection is its own, a
   * cursor or a Transformer gives the connection it holds, and any other object is a TypeError.
   */
  function ConnectionFromContext(context: AdaptContext): (r: Result<Connection?, Error>)
    ensures r.Failure? <==> context.OtherContext?
    ensures r.Failure? ==> r.error == TypeError
    ensures context.NoContext? ==> r == Success(null)
    ensures context.ConnectionContext? ==> r == Success(context.conn)
    ensures context.CursorContext? ==> r == Success(context.cursor.connection)
    ensures context.TransformerContext? ==> r == Success(context.connection)
  {
    match context
    case NoContext => Success(null)
    case ConnectionContext(c) => Success(c)
    case CursorContext(cur) => Success(cur.connection)
    case TransformerContext(conn, _) => Success(conn)
    case OtherContext(_) => Failure(TypeError)
  }

  /** The class-level `Dumper.globals` and `Loader.globals` maps. */
  class Registry {
    var dumpers: DumpersMap
    var loaders: LoadersMap

    constructor ()
      ensures dumpers == map[] && loaders == map[]
    {
      dumpers, loaders := map[], map[];
    }
  }

  /**
   * A dumper instance: the class it dumps, the context and connection it was built with, and
   * what its concrete subclass supplies (`oid`, `dump`). `sub` is the element dumper a list
   * dumper is given by `set_sub_dumper`.
   */
  class Dumper {
    const src: PyType
    const context: AdaptContext
    const connection: Connection?
    const oid: Oid
    const dump: Value -> Bytes
    var sub: Dumper?

    /** `Dumper.__init__`, for a context whose connection can be found; no context by default. */
    constructor (src: PyType, impl: DumperImpl, context: AdaptContext := NoContext)
      requires ConnectionFromContext(context).Success?
      ensures this.src == src && this.context == context
      ensures connection == ConnectionFromContext(context).value
      ensures oid == impl.oid && dump == impl.dump && sub == null
    {
      this.src := src;
      this.context := context;
      this.connection := ConnectionFromContext(context).value;
      this.oid := impl.oid;
      this.dump := impl.dump;
      this.sub := null;
    }

    /** `Dumper(src, context)`: raises TypeError when no connection can be found from `context`. */
    static method New(src: PyType, impl: DumperImpl, context: AdaptContext := NoContext) returns (r: Result<Dumper, Error>)
      ensures r.Failure? <==> context.OtherContext?
      ensures r.Failure? ==> r.error == TypeError
      ensures r.Success? ==> fresh(r.value)
      ensures r.Success? ==> r.value.src == src && r.value.context == context
      ensures r.Success? ==> r.value.connection == ConnectionFromContext(context).value
      ensures r.Success? ==> r.value.oid == impl.oid && r.value.dump == impl.dump && r.value.sub == null
    {
      if ConnectionFromContext(context).Failure? {
        return Failure(TypeError);
      }
      var d := new Dumper(src, impl, context);
      return Success(d);
    }

    /** `set_sub_dumper` of a list dumper. */
    method SetSubDumper(d: Dumper)
      modifies this`sub
      ensures sub == d
    {
      sub := d;
    }

    /**
     * `Dumper.register(src, dumper, context, format)`: checks that `src` is a class and that
     * `dumper` is callable or a Dumper subclass, then sets the one entry `(src, format)` of the
     * context's `dumpers`, or of `Dumper.globals` when there is no context, and returns `dumper`.
     * The context defaults to none and the format to TEXT. A context without a `dumpers` map (a Transformer, any other object) raises AttributeError.
     */
    static method Register(reg: Registry, src: PyObject, dumper: DumperType,
                           context: AdaptContext := NoContext, format: Format := Format.Text)
      returns (r: Result<DumperType, Error>)
      modifies reg, context.Owners()
      ensures !src.ClassObject? ==> r == Failure(TypeError)
      ensures src.ClassObject? && !dumper.Acceptable() ==> r == Failure(TypeError)
      ensures r.Failure? && context.NoContext? ==> reg.dumpers == old(reg.dumpers)
      ensures r.Failure? && context.ConnectionContext? ==> context.conn.dumpers == old(context.conn.dumpers)
      ensures r.Failure? && context.CursorContext? ==> context.cursor.dumpers == old(context.cursor.dumpers)
      ensures src.ClassObject? && dumper.Acceptable() ==>
        match context
        case NoContext =>
          r == Success(dumper) && reg.dumpers == old(reg.dumpers)[(src.cls, format) := dumper]
        case ConnectionContext(c) =>
          r == Success(dumper) && c.dumpers == old(c.dumpers)[(src.cls, format) := dumper]
        case CursorContext(cur) =>
          r == Success(dumper) && cur.dumpers == old(cur.dumpers)[(src.cls, format) := dumper]
        case _ =>
          r == Failure(AttributeError)
      ensures reg.loaders == old(reg.loaders)
      ensures !context.NoContext? ==> reg.dumpers == old(reg.dumpers)
      ensures context.ConnectionContext? ==> context.conn.loaders == old(context.conn.loaders)
      ensures context.CursorContext? ==> context.cursor.loaders == old(context.cursor.loaders)
    {
      if !src.ClassObject? {
        return Failure(TypeError);
      }
      if !dumper.Acceptable() {
        return Failure(TypeError);
      }
      match context {
        case NoContext =>
          reg.dumpers := reg.dumpers[(src.cls, format) := dumper];
        case ConnectionContext(c) =>
          c.dumpers := c.dumpers[(src.cls, format) := dumper];
        case CursorContext(cur) =>
          cur.dumpers := cur.dumpers[(src.cls, format) := dumper];
        case TransformerContext(_, _) =>
          return Failure(AttributeError);
        case OtherContext(_) =>
          return Failure(AttributeError);
      }
      return Success(dumper);
    }

    /** `Dumper.register_binary`: `register` with format BINARY. */
    static method RegisterBinary(reg: Registry, src: PyObject, dumper: DumperType, context: AdaptContext := NoContext)
      returns (r: Result<DumperType, Error>)
      modifies reg, context.Owners()
      ensures !(src.ClassObject? && dumper.Acceptable()) ==> r == Failure(TypeError)
      ensures src.ClassObject? && dumper.Acceptable() ==>
        match context
        case NoContext =>
          r == Success(dumper) && reg.dumpers == old(reg.dumpers)[(src.cls, Format.Binary) := dumper]
        case ConnectionContext(c) =>
          r == Success(dumper) && c.dumpers == old(c.dumpers)[(src.cls, Format.Binary) := dumper]
        case CursorContext(cur) =>
          r == Success(dumper) && cur.dumpers == old(cur.dumpers)[(src.cls, Format.Binary) := dumper]
        case _ =>
          r == Failure(AttributeError)
      ensures r.Failure? && context.NoContext? ==> reg.dumpers == old(reg.dumpers)
      ensures r.Failure? && context.ConnectionContext? ==> context.conn.dumpers == old(context.conn.dumpers)
      ensures r.Failure? && context.CursorContext? ==> context.cursor.dumpers == old(context.cursor.dumpers)
      ensures reg.loaders == old(reg.loaders)
      ensures !context.NoContext? ==> reg.dumpers == old(reg.dumpers)
      ensures context.ConnectionContext? ==> context.conn.loaders == old(context.conn.loaders)
      ensures context.CursorContext? ==> context.cursor.loaders == old(context.cursor.loaders)
    {
      r := Register(reg, src, dumper, context, Format.Binary);
    }

    /**
     * Applying the decorator `Dumper.text(src)` to `dumper`: registers it globally for TEXT and
     * returns it unchanged.
     */
    static method Text(reg: Registry, src: PyObject, dumper: DumperType) returns (r: Result<DumperType, Error>)
      modifies reg
      ensures src.ClassObject? && dumper.Acceptable() ==>
        r == Success(dumper) && reg.dumpers == old(reg.dumpers)[(src.cls, Format.Text) := dumper]
      ensures !(src.ClassObject? && dumper.Acceptable()) ==>
        r == Failure(TypeError) && reg.dumpers == old(reg.dumpers)
      ensures reg.loaders == old(reg.loaders)
    {
      r := Register(reg, src, dumper);
      if r.Success? {
        r := Success(dumper);
      }
    }

    /**
     * Applying the decorator `Dumper.binary(src)` to `dumper`: registers it globally for BINARY
     * and returns it unchanged.
     */
    static method Binary(reg: Registry, src: PyObject, dumper: DumperType) returns (r: Result<DumperType, Error>)
      modifies reg
      ensures src.ClassObject? && dumper.Acceptable() ==>
        r == Success(dumper) && reg.dumpers == old(reg.dumpers)[(src.cls, Format.Binary) := dumper]
      ensures !(src.ClassObject? && dumper.Acceptable()) ==>
        r == Failure(TypeError) && reg.dumpers == old(reg.dumpers)
      ensures reg.loaders == old(reg.loaders)
    {
      r := RegisterBinary(reg, src, dumper);
      if r.Success? {
        r := Success(dumper);
      }
    }
  }

  /** A loader instance: the OID it loads, its context and connection, and its (opaque) `load`. */
  class Loader {
    const oid: Oid
    const context: AdaptContext
    const connection: Connection?
    const load: Bytes -> Value

    /** `Loader.__init__`, for a context whose connection can be found; no context by default. */
    constructor (oid: Oid, impl: LoaderImpl, context: AdaptContext := NoContext)
      requires ConnectionFromContext(context).Success?
      ensures this.oid == oid && this.context == context
      ensures connection == ConnectionFromContext(context).value
      ensures load == impl.load
    {
      this.oid := oid;
      this.context := context;
      this.connection := ConnectionFromContext(context).value;
      this.load := impl.load;
    }

    /** `Loader(oid, context)`: raises TypeError when no connection can be found from `context`. */
    static method New(oid: Oid, impl: LoaderImpl, context: AdaptContext := NoContext) returns (r: Result<Loader, Error>)
      ensures r.Failure? <==> context.OtherContext?
      ensures r.Failure? ==> r.error == TypeError
      ensures r.Success? ==> fresh(r.value)
      ensures r.Success? ==> r.value.oid == oid && r.value.context == context
      ensures r.Success? ==> r.value.connection == ConnectionFromContext(context).value
      ensures r.Success? ==> r.value.load == impl.load
    {
      if ConnectionFromContext(context).Failure? {
        return Failure(TypeError);
      }
      var l := new Loader(oid, impl, context);
      return Success(l);
    }

    /**
     * `Loader.register(oid, loader, context, format)`: checks that `oid` is an int and that
     * `loader` is callable or a Loader subclass, then sets the one entry `(oid, format)` of the
     * context's `loaders`, or of `Loader.globals` when there is no context, and returns `loader`.
     * The context defaults to none and the format to TEXT.
     */
    static method Register(reg: Registry, oid: PyObject, loader: LoaderType,
                           context: AdaptContext := NoContext, format: Format := Format.Text)
      returns (r: Result<LoaderType, Error>)
      modifies reg, context.Owners()
      ensures !oid.IntObject? ==> r == Failure(TypeError)
      ensures oid.IntObject? && !loader.Acceptable() ==> r == Failure(TypeError)
      ensures r.Failure? && context.NoContext? ==> reg.loaders == old(reg.loaders)
      ensures r.Failure? && context.ConnectionContext? ==> context.conn.loaders == old(context.conn.loaders)
      ensures r.Failure? && context.CursorContext? ==> context.cursor.loaders == old(context.cursor.loaders)
      ensures oid.IntObject? && loader.Acceptable() ==>
        match context
        case NoContext =>
          r == Success(loader) && reg.loaders == old(reg.loaders)[(oid.n, format) := loader]
        case ConnectionContext(c) =>
          r == Success(loader) && c.loaders == old(c.loaders)[(oid.n, format) := loader]
        case CursorContext(cur) =>
          r == Success(loader) && cur.loaders == old(cur.loaders)[(oid.n, format) := loader]
        case _ =>
          r == Failure(AttributeError)
      ensures reg.dumpers == old(reg.dumpers)
      ensures !context.NoContext? ==> reg.loaders == old(reg.loaders)
      ensures context.ConnectionContext? ==> context.conn.dumpers == old(context.conn.dumpers)
      ensures context.CursorContext? ==> context.cursor.dumpers == old(context.cursor.dumpers)
    {
      if !oid.IntObject? {
        return Failure(TypeError);
      }
      if !loader.Acceptable() {
        return Failure(TypeError);
      }
      match context {
        case NoContext =>
          reg.loaders := reg.loaders[(oid.n, format) := loader];
        case ConnectionContext(c) =>
          c.loaders := c.loaders[(oid.n, format) := loader];
        case CursorContext(cur) =>
          cur.loaders := cur.loaders[(oid.n, format) := loader];
        case TransformerContext(_, _) =>
          return Failure(AttributeError);
        case OtherContext(_) =>
          return Failure(AttributeError);
      }
      return Success(loader);
    }

    /** `Loader.register_binary`: `register` with format BINARY. */
    static method RegisterBinary(reg: Registry, oid: PyObject, loader: LoaderType, context: AdaptContext := NoContext)
      returns (r: Result<LoaderType, Error>)
      modifies reg, context.Owners()
      ensures !(oid.IntObject? && loader.Acceptable()) ==> r == Failure(TypeError)
      ensures oid.IntObject? && loader.Acceptable() ==>
        match context
        case NoContext =>
          r == Success(loader) && reg.loaders == old(reg.loaders)[(oid.n, Format.Binary) := loader]
        case ConnectionContext(c) =>
          r == Success(loader) && c.loaders == old(c.loaders)[(oid.n, Format.Binary) := loader]
        case CursorContext(cur) =>
          r == Success(loader) && cur.loaders == old(cur.loaders)[(oid.n, Format.Binary) := loader]
        case _ =>
          r == Failure(AttributeError)
      ensures r.Failure? && context.NoContext? ==> reg.loaders == old(reg.loaders)
      ensures r.Failure? && context.ConnectionContext? ==> context.conn.loaders == old(context.conn.loaders)
      ensures r.Failure? && context.CursorContext? ==> context.cursor.loaders == old(context.cursor.loaders)
      ensures reg.dumpers == old(reg.dumpers)
      ensures !context.NoContext? ==> reg.loaders == old(reg.loaders)
      ensures context.ConnectionContext? ==> context.conn.dumpers == old(context.conn.dumpers)
      ensures context.CursorContext? ==> context.cursor.dumpers == old(context.cursor.dumpers)
    {
      r := Register(reg, oid, loader, context, Format.Binary);
    }

    /**
     * Applying the decorator `Loader.text(oid)` to `loader`: registers it globally for TEXT and
     * returns it unchanged.
     */
    static method Text(reg: Registry, oid: PyObject, loader: LoaderType) returns (r: Result<LoaderType, Error>)
      modifies reg
      ensures oid.IntObject? && loader.Acceptable() ==>
        r == Success(loader) && reg.loaders == old(reg.loaders)[(oid.n, Format.Text) := loader]
      ensures !(oid.IntObject? && loader.Acceptable()) ==>
        r == Failure(TypeError) && reg.loaders == old(reg.loaders)
      ensures reg.dumpers == old(reg.dumpers)
    {
      r := Register(reg, oid, loader);
      if r.Success? {
        r := Success(loader);
      }
    }

    /**
     * Applying the decorator `Loader.binary(oid)` to `loader`: registers it globally for BINARY
     * and returns it unchanged.
     */
    static method Binary(reg: Registry, oid: PyObject, loader: LoaderType) returns (r: Result<LoaderType, Error>)
      modifies reg
      ensures oid.IntObject? && loader.Acceptable() ==>
        r == Success(loader) && reg.loaders == old(reg.loaders)[(oid.n, Format.Binary) := loader]
      ensures !(oid.IntObject? && loader.Acceptable()) ==>
        r == Failure(TypeError) && reg.loaders == old(reg.loaders)
      ensures reg.dumpers == old(reg.dumpers)
    {
      r := RegisterBinary(reg, oid, loader);
      if r.Success? {
        r := Success(loader);
      }
    }
  }

  /**
   * The registration check accepts exactly the callables: a class is callable, so the clause
   * for subclasses of the base class never accepts anything on its own.
   */
  lemma AcceptableIsCallable<F>(c: Codec<F>)
    ensures c.Acceptable() <==> c.Callable()
  {
  }
}
