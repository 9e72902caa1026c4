/** Values shared by every part of the simulator model: PHP's loosely typed
    property values, the three object kinds, the error kinds the engine throws,
    and the wrappers used instead of exceptions and null returns. */
module Base {

  datatype Option<+T> = None | Some(value: T)

  /** The outcome of an operation that returns nothing but may throw. */
  datatype Outcome = Pass | Fail(error: Error)

  /** The result of an operation that returns a value or throws. */
  datatype Result<+T> = Ok(value: T) | Err(error: Error)

  /** The exceptions the core raises, by cause. */
  datatype Error =
    | PropertyNotFound      // property code never declared
    | NotNullViolation      // null given to setPropertyValue
    | DuplicateValue        // unique value already claimed
    | UploadRejected        // file/image value refused by the upload step
    | InvalidReference      // neither side of a reference definition matches
    | CardinalityViolation  // wrong number of source or target ids
    | NotSelf               // the acting record is not first on its own side
    | StoreNotFound         // StorageFactory lookup of an unregistered store
    | UndefinedNamespace    // deleteReference as written: `$namespace` is undefined

  /** A property value as PHP stores it (JSON scalars). */
  datatype Value = Null | Str(s: string) | Int(i: int) | Bool(b: bool)

  /** The `$objectType` argument of the engine: 'data', 'user' or 'project'. */
  datatype ObjectType = Data | User | Project

  /** A property definition `{type, default}`. */
  datatype PropDef = PropDef(propType: string, default: Value)

  /** PHP arguments that are either one object or an array of them. */
  datatype OneOrMany<T> = One(item: T) | Many(items: seq<T>)

  function AsList<T>(objects: OneOrMany<T>): (r: seq<T>)
    ensures objects.One? ==> r == [objects.item]
    ensures objects.Many? ==> r == objects.items
  {
    match objects
    case One(x) => [x]
    case Many(xs) => xs
  }

  /** What `getReference` returns: null, the single id, or the list of ids. */
  datatype RefShape = NoReference | OneId(id: string) | IdList(ids: seq<string>)

  /** The read shape of a stored reference entry (None: code never added). */
  function ShapeOf(entry: Option<seq<string>>): (r: RefShape)
    ensures r.NoReference? <==> entry.None?
    ensures r.OneId? <==> (entry.Some? && |entry.value| == 1)
    ensures r.OneId? ==> entry.value == [r.id]
    ensures r.IdList? ==> entry.value == r.ids && |r.ids| != 1
  {
    match entry
    case None => NoReference
    case Some(ids) => if |ids| == 1 then OneId(ids[0]) else IdList(ids)
  }
}
