/** The records the generator passes between its stages: contracts ("repositories") read from
    the API package, their methods and parameters, and the implementation records built
    from them. */
module Types {

  /** One parameter or result: an identifier (possibly empty) and a type text. */
  datatype Param = Param(ident: string, typ: string)

  datatype Method = Method(ident: string, params: seq<Param>, results: seq<Param>)

  /** An import of a Go file: an alias (empty when there is none) and an unquoted path. */
  datatype Import = Import(name: string, path: string)

  /** A repository contract: an interface type whose name ends in `Repository`. */
  datatype Repository = Repository(
    pkg: string,
    packagePath: string,
    filename: string,
    ident: string,
    methods: seq<Method>,
    imports: seq<Import>)

  /** A contract together with what is known about its implementation. */
  datatype RepositoryImpl = RepositoryImpl(
    repo: Repository,
    isNew: bool,
    implPackage: string,
    implPackagePath: string,
    implFilename: string,
    implMethods: seq<string>)

  function EmptyRepository(): Repository {
    Repository("", "", "", "", [], [])
  }

  /** The failures the generator reports; a Go run-time panic is recorded with its message,
      and a failure of the file system with the message it gives. */
  datatype Error =
    | NoPackage
    | NotNested
    | BothImports
    | Panic(message: string)
    | Io(message: string)

  /** The panic of Go indexing the first byte or element of something empty. */
  const IndexPanic := "runtime error: index out of range [0] with length 0"

  datatype Result<T> = Ok(value: T) | Err(error: Error)

  datatype Option<T> = None | Some(value: T)

  /** The message Go's `errors.New` gives each failure. */
  function Message(e: Error): string {
    match e
    case NoPackage => "no package name found"
    case NotNested => "apiPackagePath is not nested under apiRoot"
    case BothImports => "cannot import both API and implementation"
    case Panic(m) => m
    case Io(m) => m
  }
}
