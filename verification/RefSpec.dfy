/** `$ref` resolution as a function: inlining bounded by a depth budget, every external
    document loaded afresh. */
module RefSpec {
  import opened Basics
  import opened JsonModel
  import Text

  datatype RefError =
    | DepthExceeded
    | NotAString
    | UrlUnsupported
    | LocalNotFound
    | CannotLocate
    | OutsideRoots
    | CannotLoad
    | PointerNotFound
    | CacheMiss

  type Resolved = Result<Json, RefError>

  /** The file system as resolution sees it: where a reference leads from a directory,
      which files may be read, what they hold, and their directories. */
  datatype World = World(
    locate: (string, string) -> Option<string>,
    allowed: string -> bool,
    load: string -> Option<Json>,
    parent: string -> string)

  const REF: string := "$ref"
  const WORD: nat := 0x1_0000_0000_0000_0000

  // ---------------------------------------------------------------------------
  // References and pointers
  // ---------------------------------------------------------------------------

  /** The file part and the pointer part of a reference. */
  function SplitRef(text: string): (string, string) {
    match Text.IndexOf(text, '#')
    case Some(i) => (text[..i], text[i + 1..])
    case None => (text, "")
  }

  predicate IsUrl(text: string) {
    "http://" <= text || "https://" <= text
  }

  /** Replace each occurrence of the two characters `a`, `b`, scanning from the left. */
  function ReplacePair(s: string, a: char, b: char, c: char): string
    decreases |s|
  {
    if |s| < 2 then s
    else if s[0] == a && s[1] == b then [c] + ReplacePair(s[2..], a, b, c)
    else [s[0]] + ReplacePair(s[1..], a, b, c)
  }

  function Unescape(segment: string): string {
    ReplacePair(ReplacePair(segment, '~', '1', '/'), '~', '0', '~')
  }

  function PointerParts(pointer: string): seq<string> {
    Text.Split(if "/" <= pointer then pointer[1..] else pointer, '/')
  }

  /** One pointer step: a member of an object, or an element of an array. */
  function Child(v: Json, segment: string): Option<Json> {
    match v
    case Obj(members) => Find(members, Unescape(segment))
    case Arr(items) =>
      (match Text.ParseUnsigned(Unescape(segment), WORD)
       case Some(i) => if i < |items| then Some(items[i]) else None
       case None => None)
    case _ => None
  }

  function Descend(v: Json, parts: seq<string>): Option<Json>
    decreases |parts|
  {
    if parts == [] then Some(v)
    else
      match Child(v, parts[0])
      case None => None
      case Some(child) => Descend(child, parts[1..])
  }

  function ResolvePointer(root: Json, pointer: string): Option<Json> {
    if pointer == "" || pointer == "/" then Some(root) else Descend(root, PointerParts(pointer))
  }

  // ---------------------------------------------------------------------------
  // Inlining
  // ---------------------------------------------------------------------------

  function Siblings(members: seq<Member>): seq<Member> {
    if members == [] then []
    else (if members[0].key == REF then [] else [members[0]]) + Siblings(members[1..])
  }

  /** Add each sibling whose key the target does not already have. */
  function OrInsert(members: seq<Member>, siblings: seq<Member>): seq<Member>
    decreases |siblings|
  {
    if siblings == [] then members
    else
      var m := siblings[0];
      OrInsert(if Find(members, m.key).Some? then members else Put(members, m.key, m.value), siblings[1..])
  }

  /** Siblings of a reference are dropped when its target is not an object. */
  function Merge(target: Json, siblings: seq<Member>): Json {
    if target.Obj? then Obj(OrInsert(target.members, siblings)) else target
  }

  /** What a reference denotes before it is walked: a place in the current document, or in
      another file. */
  datatype Target = Local(value: Json) | External(value: Json, doc: Json, base: string)

  function Locate(w: World, text: string, root: Json, base: string): Result<Target, RefError> {
    var (file, pointer) := SplitRef(text);
    if IsUrl(text) then Err(UrlUnsupported)
    else if file == "" then
      match ResolvePointer(root, pointer)
      case Some(value) => Ok(Local(value))
      case None => Err(LocalNotFound)
    else
      match w.locate(base, file)
      case None => Err(CannotLocate)
      case Some(path) =>
        if !w.allowed(path) then Err(OutsideRoots)
        else
          match w.load(path)
          case None => Err(CannotLoad)
          case Some(doc) =>
            match (if pointer == "" then Some(doc) else ResolvePointer(doc, pointer))
            case None => Err(PointerNotFound)
            case Some(value) => Ok(External(value, doc, w.parent(path)))
  }

  /** `fuel` is the number of levels left: the depth limit plus one, less the depth. */
  function Resolve(w: World, v: Json, root: Json, base: string, fuel: nat): Resolved
    decreases fuel, 1, 0
  {
    if fuel == 0 then Err(DepthExceeded)
    else
      match v
      case Obj(members) =>
        (match Find(members, REF)
         case Some(Str(text)) =>
           (match ResolveRef(w, text, root, base, fuel - 1)
            case Ok(target) => Resolve(w, Merge(target, Siblings(members)), root, base, fuel - 1)
            case Err(error) => Err(error))
         case Some(_) => Err(NotAString)
         case None =>
           (match ResolveMembers(w, members, root, base, fuel - 1)
            case Ok(out) => Ok(Obj(out))
            case Err(error) => Err(error)))
      case Arr(items) =>
        (match ResolveItems(w, items, root, base, fuel - 1)
         case Ok(out) => Ok(Arr(out))
         case Err(error) => Err(error))
      case _ => Ok(v)
  }

  /** A file's value is resolved within that file before it is handed back. */
  function ResolveRef(w: World, text: string, root: Json, base: string, fuel: nat): Resolved
    decreases fuel, 2, 0
  {
    match Locate(w, text, root, base)
    case Ok(Local(value)) => Ok(value)
    case Ok(External(value, doc, dir)) => Resolve(w, value, doc, dir, fuel)
    case Err(error) => Err(error)
  }

  function ResolveMembers(w: World, members: seq<Member>, root: Json, base: string, fuel: nat): (r: Result<seq<Member>, RefError>)
    ensures r.Ok? ==> |r.value| == |members|
    decreases fuel, 2, |members|
  {
    if members == [] then Ok([])
    else
      match Resolve(w, members[0].value, root, base, fuel)
      case Err(error) => Err(error)
      case Ok(value) =>
        match ResolveMembers(w, members[1..], root, base, fuel)
        case Err(error) => Err(error)
        case Ok(rest) => Ok([Member(members[0].key, value)] + rest)
  }

  function ResolveItems(w: World, items: seq<Json>, root: Json, base: string, fuel: nat): (r: Result<seq<Json>, RefError>)
    ensures r.Ok? ==> |r.value| == |items|
    decreases fuel, 2, |items|
  {
    if items == [] then Ok([])
    else
      match Resolve(w, items[0], root, base, fuel)
      case Err(error) => Err(error)
      case Ok(value) =>
        match ResolveItems(w, items[1..], root, base, fuel)
        case Err(error) => Err(error)
        case Ok(rest) => Ok([value] + rest)
  }
}
