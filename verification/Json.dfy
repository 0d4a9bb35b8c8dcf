/** JSON values, as the schema mutations see them, and the Go map they mutate. */
module Json {

  /** Texts, of object keys and of string values alike. The texts the mutations name are numbered,
      so that telling two of them apart takes no look at their characters; SPELLINGS gives those. */
  datatype Text = Word(code: nat) | Other(spelling: string)

  // keywords of a schema node
  const TYPE := Word(0)
  const PROPERTIES := Word(1)
  const REQUIRED := Word(2)
  const ITEMS := Word(3)
  const ADDITIONAL_PROPERTIES := Word(4)
  const PATTERN_PROPERTIES := Word(5)
  const ALL_OF := Word(6)
  const ANY_OF := Word(7)
  const ONE_OF := Word(8)
  const NOT := Word(9)
  const ENUM := Word(10)
  const CONST := Word(11)
  const PATTERN := Word(12)
  const FORMAT := Word(13)
  const MIN_LENGTH := Word(14)
  const MAX_LENGTH := Word(15)
  const MINIMUM := Word(16)
  const MAXIMUM := Word(17)
  const MIN_ITEMS := Word(18)
  const MAX_ITEMS := Word(19)
  const UNIQUE_ITEMS := Word(20)
  const INT_OR_STRING := Word(21)
  const LIST_TYPE := Word(22)
  const LIST_MAP_KEYS := Word(23)
  const DESCRIPTION := Word(24)

  // names of types
  const NULL := Word(25)
  const BOOLEAN := Word(26)
  const OBJECT := Word(27)
  const ARRAY := Word(28)
  const NUMBER := Word(29)
  const STRING := Word(30)
  const INTEGER := Word(31)

  // names of the properties of env variables and ports
  const NAME := Word(32)
  const VALUE := Word(33)
  const VALUE_FROM := Word(34)
  const PORT := Word(35)
  const CONTAINER_PORT := Word(36)

  // the pattern of a text that holds a template
  const TEMPLATE_PATTERN := Word(37)

  const EMPTY := Other("")

  const SPELLINGS: seq<string> := [
    "type", "properties", "required", "items", "additionalProperties", "patternProperties", "allOf", "anyOf",
    "oneOf", "not", "enum", "const", "pattern", "format", "minLength", "maxLength", "minimum", "maximum",
    "minItems", "maxItems", "uniqueItems", "x-kubernetes-int-or-string", "x-kubernetes-list-type",
    "x-kubernetes-list-map-keys", "description", "null", "boolean", "object", "array", "number", "string",
    "integer", "name", "value", "valueFrom", "port", "containerPort", "\\{\\{[\\s\\S]*\\}\\}"
  ]

  function Spell(t: Text): string {
    match t
    case Word(code) => if code < |SPELLINGS| then SPELLINGS[code] else ""
    case Other(s) => s
  }

  datatype Json =
    | Null
    | Bool(b: bool)
    | Num(n: real)
    | Str(t: Text)
    | Arr(a: seq<Json>)
    | Obj(m: map<Text, Json>)

  type Keywords = map<Text, Json>

  /** A Go `map[string]any` handed to a visitor, which updates it in place. */
  class GoMap {
    var kw: Keywords

    constructor (kw: Keywords)
      ensures this.kw == kw
    {
      this.kw := kw;
    }
  }
}
