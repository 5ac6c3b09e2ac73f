/**
 The struct tags of ormgen: the printer in render_entity_struct.go, the parser in tag.go and the column builder in
 scan.go, on the tag text between the double quotes.
 */
module StructTags {
  import opened Numbers
  import opened Prelude
  import Text

  // ---- attributes ----

  datatype Key =
    | Column | Type | Default | IdType | Fill | TypeHandler | KeyColumn | Update | UpdateExpression | Condition
    | InsertStrategy | UpdateStrategy | WhereStrategy
    | PrimaryKey | AutoIncrement | Nullable | Select | Version | SoftDelete | CreatedAt | UpdatedAt
    | OrderBy | OrderDesc
    | Transient
    | Size | NumericScale | OrderPriority

  datatype Kind = StringKind | BoolKind | IntKind

  /** Go's int: 64 bits. */
  type GoInt = i: int | -0x8000_0000_0000_0000 <= i < 0x8000_0000_0000_0000

  datatype TagValue = Str(s: string) | Boolean(b: bool) | Int(i: GoInt)

  type Tag = map<Key, TagValue>

  datatype Error =
    | Unsupported(key: Key) | Empty | Malformed | Duplicate(key: Key) | UnknownKey | BadValue
    | MissingColumn | BadEnum | BothUpdates

  function Name(k: Key): string {
    match k
    case Column => "column"
    case Type => "type"
    case Default => "default"
    case IdType => "id-type"
    case Fill => "fill"
    case TypeHandler => "type-handler"
    case KeyColumn => "key-column"
    case Update => "update"
    case UpdateExpression => "update-expression"
    case Condition => "condition"
    case InsertStrategy => "insert-strategy"
    case UpdateStrategy => "update-strategy"
    case WhereStrategy => "where-strategy"
    case PrimaryKey => "primary-key"
    case AutoIncrement => "auto-increment"
    case Nullable => "nullable"
    case Select => "select"
    case Version => "version"
    case SoftDelete => "soft-delete"
    case CreatedAt => "created-at"
    case UpdatedAt => "updated-at"
    case OrderBy => "order-by"
    case OrderDesc => "order-desc"
    case Transient => "transient"
    case Size => "size"
    case NumericScale => "numeric-scale"
    case OrderPriority => "order-priority"
  }

  function KindOf(k: Key): Kind {
    match k
    case PrimaryKey | AutoIncrement | Nullable | Select | Version | SoftDelete | CreatedAt | UpdatedAt
       | OrderBy | OrderDesc
       | Transient => BoolKind
    case Size | NumericScale | OrderPriority => IntKind
    case _ => StringKind
  }

  function ValueKind(v: TagValue): Kind {
    match v case Str(_) => StringKind case Boolean(_) => BoolKind case Int(_) => IntKind
  }

  /** The length and the first letter of a name. */
  function Shape(k: Key): (nat, char) {
    match k
    case Column => (6, 'c')
    case Type => (4, 't')
    case Default => (7, 'd')
    case IdType => (7, 'i')
    case Fill => (4, 'f')
    case TypeHandler => (12, 't')
    case KeyColumn => (10, 'k')
    case Update => (6, 'u')
    case UpdateExpression => (17, 'u')
    case Condition => (9, 'c')
    case InsertStrategy => (15, 'i')
    case UpdateStrategy => (15, 'u')
    case WhereStrategy => (14, 'w')
    case PrimaryKey => (11, 'p')
    case AutoIncrement => (14, 'a')
    case Nullable => (8, 'n')
    case Select => (6, 's')
    case Version => (7, 'v')
    case SoftDelete => (11, 's')
    case CreatedAt => (10, 'c')
    case UpdatedAt => (10, 'u')
    case OrderBy => (8, 'o')
    case OrderDesc => (10, 'o')
    case Transient => (9, 't')
    case Size => (4, 's')
    case NumericScale => (13, 'n')
    case OrderPriority => (14, 'o')
  }

  lemma NameShape(k: Key)
    ensures |Name(k)| == Shape(k).0 && Name(k)[0] == Shape(k).1
  {
  }

  lemma ShapesDiffer(k: Key, l: Key)
    requires Shape(k) == Shape(l)
    ensures k == l
  {
  }

  lemma NamesDiffer(k: Key, l: Key)
    requires Name(k) == Name(l)
    ensures k == l
  {
    hide Name, Shape;
    NameShape(k);
    NameShape(l);
    ShapesDiffer(k, l);
  }

  lemma OneKey(name: string)
    ensures forall k, l | Name(k) == name && Name(l) == name :: k == l
  {
    hide Name;
    forall k, l | Name(k) == name && Name(l) == name
      ensures k == l
    {
      NamesDiffer(k, l);
    }
  }

  /** The key with a name, in the table of supported attributes. */
  function KeyOf(name: string): (r: Option<Key>)
    ensures r.Some? ==> Name(r.value) == name
    ensures r.None? ==> forall k :: Name(k) != name
  {
    OneKey(name);
    if k :| Name(k) == name then Some(k) else None
  }

  lemma KeyOfName(k: Key)
    ensures KeyOf(Name(k)) == Some(k)
  {
    hide Name, KeyOf;
    NamesDiffer(KeyOf(Name(k)).value, k);
  }

  predicate Letters(s: string) {
    s != "" && forall c <- s :: 'a' <= c <= 'z' || c == '-'
  }

  lemma TextNames(k: Key)
    requires k.Column? || k.Type? || k.Default? || k.IdType? || k.Fill? || k.TypeHandler? || k.KeyColumn?
    ensures Letters(Name(k))
  {
  }

  lemma OptionNames(k: Key)
    requires KindOf(k) == StringKind && !k.Column? && !k.Type? && !k.Default? && !k.IdType? && !k.Fill?
    requires !k.TypeHandler? && !k.KeyColumn?
    ensures Letters(Name(k))
  {
  }

  lemma OtherNames(k: Key)
    requires KindOf(k) != StringKind
    ensures Letters(Name(k))
  {
  }

  /** Names are made of lower-case letters and hyphens. */
  lemma NameLetters(k: Key)
    ensures Letters(Name(k))
  {
    hide Name, Letters;
    if k.Column? || k.Type? || k.Default? || k.IdType? || k.Fill? || k.TypeHandler? || k.KeyColumn? {
      TextNames(k);
    } else if KindOf(k) == StringKind {
      OptionNames(k);
    } else {
      OtherNames(k);
    }
  }

  // ---- texts ----

  function Index(s: string, c: char): (i: nat)
    ensures i <= |s| && (i < |s| ==> s[i] == c) && (i == |s| ==> c !in s)
    ensures forall j :: 0 <= j < i ==> s[j] != c
  {
    if s == "" || s[0] == c then 0 else 1 + Index(s[1..], c)
  }

  /** `strings.Split` on one character. */
  function Split(s: string, c: char): (parts: seq<string>)
    ensures parts != []
    decreases |s|
  {
    var i := Index(s, c);
    if i == |s| then [s] else [s[..i]] + Split(s[i + 1..], c)
  }

  lemma IndexAt(a: string, c: char, b: string)
    requires c !in a
    ensures Index(a + [c] + b, c) == |a| && Index(a, c) == |a|
  {
    var s := a + [c] + b;
    assert s[|a|] == c;
    assert forall j :: 0 <= j < |a| ==> s[j] == a[j] && a[j] in a;
  }

  lemma {:induction false} SplitJoin(parts: seq<string>, c: char)
    requires parts != [] && forall p <- parts :: c !in p
    ensures Split(Text.Join(parts, [c]), c) == parts
  {
    if |parts| == 1 {
      var p := parts[0];
      assert p in parts;
      assert Index(p, c) == |p|;
    } else {
      var p, rest := parts[0], Text.Join(parts[1..], [c]);
      assert p in parts;
      IndexAt(p, c, rest);
      SplitJoin(parts[1..], c);
      var s := p + [c] + rest;
      assert s[..|p|] == p && s[|p| + 1..] == rest;
    }
  }

  /** A text that TrimSpace leaves as it is, and that is not empty. */
  predicate Solid(s: string) {
    s != "" && !Text.IsSpace(s[0]) && !Text.IsSpace(s[|s| - 1])
  }

  lemma SolidTrim(s: string)
    requires Solid(s)
    ensures Text.TrimSpace(s) == s
  {
  }

  lemma {:induction false} SolidJoin(parts: seq<string>)
    requires parts != [] && forall p <- parts :: Solid(p)
    ensures Solid(Text.Join(parts, ";"))
  {
    assert parts[0] in parts;
    if |parts| > 1 { SolidJoin(parts[1..]); }
  }

  // ---- numbers ----

  predicate IsGoInt(i: int) {
    -0x8000_0000_0000_0000 <= i < 0x8000_0000_0000_0000
  }

  /** `strconv.Atoi`: an optional sign and digits, within 64 bits. */
  function Atoi(s: string): Option<GoInt> {
    var digits := if s != "" && (s[0] == '-' || s[0] == '+') then s[1..] else s;
    if !AllDigits(digits) then None
    else
      var n := if s[0] == '-' then -DigitsValue(digits) else DigitsValue(digits);
      if IsGoInt(n) then Some(n) else None
  }

  lemma AtoiItoa(i: GoInt)
    ensures Atoi(Itoa(i)) == Some(i)
  {
    hide Digits, DigitsValue;
    var n: int := i;
    DigitsBack(if n < 0 then -n else n);
    var s := Itoa(i);
    if n < 0 { assert s[1..] == Digits(-n); } else { assert s[0] in s; }
  }

  // ---- printing a value ----

  function ShowValue(v: TagValue): string {
    match v
    case Str(s) => "'" + s + "'"
    case Boolean(b) => if b then "true" else "false"
    case Int(i) => Itoa(i)
  }

  function Show(k: Key, v: TagValue): string {
    Name(k) + "=" + ShowValue(v)
  }

  const UNSUPPORTED := "';\n\r\t"

  /** Whether the printer takes a text. */
  predicate Printable(s: string) {
    forall c <- s :: c !in UNSUPPORTED
  }

  predicate PrintableValue(v: TagValue) {
    match v
    case Str(s) => Printable(s)
    case Boolean(_) => true
    case Int(_) => true
  }

  // ---- parsing ----

  function ParseValue(kind: Kind, raw: string): Result<TagValue, Error>
    requires raw != ""
  {
    var first, last := raw[0] == '\'', raw[|raw| - 1] == '\'';
    if first || last then
      if |raw| < 2 || !first || !last || kind != StringKind then Err(BadValue) else Ok(Str(raw[1..|raw| - 1]))
    else if raw == "true" || raw == "false" then
      if kind != BoolKind then Err(BadValue) else Ok(Boolean(raw == "true"))
    else
      match Atoi(raw)
      case Some(i) => if kind != IntKind then Err(BadValue) else Ok(Int(i))
      case None => Err(BadValue)
  }

  /** One attribute of a tag, added to those before it. */
  function ParsePart(part: string, tag: Tag): Result<Tag, Error> {
    var p := Text.TrimSpace(part);
    if p == "" then Err(Empty)
    else
      var i := Index(p, '=');
      if i == |p| then Err(Malformed)
      else
        var name, raw := Text.TrimSpace(p[..i]), Text.TrimSpace(p[i + 1..]);
        if name == "" || raw == "" then Err(Malformed)
        else
          match KeyOf(name)
          case None => Err(UnknownKey)
          case Some(k) =>
            if k in tag then Err(Duplicate(k))
            else
              match ParseValue(KindOf(k), raw)
              case Err(e) => Err(e)
              case Ok(v) => Ok(tag[k := v])
  }

  function ParseParts(parts: seq<string>, tag: Tag): Result<Tag, Error> {
    if parts == [] then Ok(tag)
    else match ParsePart(parts[0], tag) case Err(e) => Err(e) case Ok(t) => ParseParts(parts[1..], t)
  }

  function ParseTag(raw: string): Result<Tag, Error> {
    var s := Text.TrimSpace(raw);
    if s == "" then Err(Empty) else ParseParts(Split(s, ';'), map[])
  }

  /** The values of a parsed tag are of the kinds the table of attributes asks for. */
  lemma {:induction false} ParsedKinds(parts: seq<string>, tag: Tag)
    requires forall k <- tag :: ValueKind(tag[k]) == KindOf(k)
    ensures ParseParts(parts, tag).Ok?
            ==> forall k <- ParseParts(parts, tag).value :: ValueKind(ParseParts(parts, tag).value[k]) == KindOf(k)
    decreases |parts|
  {
    hide Text.TrimSpace, KindOf, Index, Atoi;
    if parts != [] {
      var one := ParsePart(parts[0], tag);
      if one.Ok? { ParsedKinds(parts[1..], one.value); }
    }
  }

  method ParseFieldTag(raw: string) returns (r: Result<Tag, Error>)
    ensures r == ParseTag(raw)
    ensures r.Ok? ==> forall k <- r.value :: ValueKind(r.value[k]) == KindOf(k)
  {
    hide Text.TrimSpace, ParsePart, Split, KindOf;
    var s := Text.TrimSpace(raw);
    if s == "" {
      return Err(Empty);
    }
    var parts := Split(s, ';');
    ParsedKinds(parts, map[]);
    var tag: Tag := map[];
    for i := 0 to |parts|
      invariant ParseParts(parts, map[]) == ParseParts(parts[i..], tag)
    {
      var next := ParsePart(parts[i], tag);
      assert parts[i..][1..] == parts[i + 1..];
      if next.Err? {
        return Err(next.error);
      }
      tag := next.value;
    }
    return Ok(tag);
  }

  // ---- parsing what was printed ----

  lemma ShowValueBack(v: TagValue)
    requires PrintableValue(v)
    ensures Solid(ShowValue(v)) && ParseValue(ValueKind(v), ShowValue(v)) == Ok(v)
    ensures ';' !in ShowValue(v)
  {
    hide Digits, DigitsValue, Atoi;
    match v
    case Str(s) => { var raw := ShowValue(v); assert raw[1..|raw| - 1] == s; StrNoSemicolon(s); }
    case Boolean(_) =>
    case Int(i) => { AtoiItoa(i); IntShape(i); }
  }

  lemma StrNoSemicolon(s: string)
    requires Printable(s)
    ensures ';' !in "'" + s + "'"
  {
    assert UNSUPPORTED[1] == ';';
  }

  lemma IntShape(i: int)
    ensures Solid(Itoa(i)) && ';' !in Itoa(i)
    ensures forall c <- Itoa(i) :: c == '-' || '0' <= c <= '9'
    ensures Itoa(i) != "true" && Itoa(i) != "false" && Itoa(i)[0] != '\'' && Itoa(i)[|Itoa(i)| - 1] != '\''
  {
    hide Digits;
    var s := Itoa(i);
    assert s[0] in s && s[|s| - 1] in s;
    assert "true"[0] == 't' && "false"[0] == 'f';
  }

  lemma NameSolid(k: Key)
    ensures Solid(Name(k)) && '=' !in Name(k) && ';' !in Name(k)
  {
    hide Name;
    NameLetters(k);
    assert Name(k)[0] in Name(k) && Name(k)[|Name(k)| - 1] in Name(k);
  }

  /** A printed attribute is read back, after attributes with other keys. */
  lemma ShowBack(k: Key, v: TagValue, tag: Tag)
    requires PrintableValue(v) && ValueKind(v) == KindOf(k) && k !in tag
    ensures ParsePart(Show(k, v), tag) == Ok(tag[k := v])
    ensures Solid(Show(k, v)) && ';' !in Show(k, v)
  {
    hide Name, ShowValue, ParseValue, KeyOf, KindOf, Text.TrimSpace;
    NameSolid(k);
    ShowValueBack(v);
    KeyOfName(k);
    var s := Show(k, v);
    assert s == Name(k) + ['='] + ShowValue(v);
    IndexAt(Name(k), '=', ShowValue(v));
    assert s[..|Name(k)|] == Name(k) && s[|Name(k)| + 1..] == ShowValue(v);
    SolidTrim(Name(k));
    SolidTrim(ShowValue(v));
    SolidTrim(s);
  }

  // ---- columns ----

  datatype IdKind = NoId | AutoId | InputId | AssignId | AssignUuid

  datatype Strategy = DefaultStrategy | Always | NotNull | NotEmpty | NotZero | Never

  datatype FillKind = NoFill | InsertFill | UpdateFill | InsertUpdateFill

  function IdText(t: IdKind): string {
    match t
    case NoId => "" case AutoId => "AUTO" case InputId => "INPUT"
    case AssignId => "ASSIGN_ID" case AssignUuid => "ASSIGN_UUID"
  }

  function StrategyText(t: Strategy): string {
    match t
    case DefaultStrategy => "" case Always => "ALWAYS" case NotNull => "NOT_NULL" case NotEmpty => "NOT_EMPTY"
    case NotZero => "NOT_ZERO" case Never => "NEVER"
  }

  function FillText(t: FillKind): string {
    match t
    case NoFill => "" case InsertFill => "INSERT" case UpdateFill => "UPDATE" case InsertUpdateFill => "INSERT_UPDATE"
  }

  function ReverseStrategy(t: Strategy): string {
    Text.Lower(Text.ReplaceAll(StrategyText(t), '_', '-'))
  }

  function ReverseFill(t: FillKind): string {
    Text.Lower(FillText(t))
  }

  function Normalized(s: string): string {
    Text.ReplaceAll(Text.Upper(Text.TrimSpace(s)), '-', '_')
  }

  function ParseIdType(value: string): Option<IdKind> {
    var n := Normalized(value);
    if n == "" || n == "NONE" then Some(NoId)
    else if n == "AUTO" then Some(AutoId)
    else if n == "INPUT" then Some(InputId)
    else if n == "ASSIGN_ID" then Some(AssignId)
    else if n == "ASSIGN_UUID" then Some(AssignUuid)
    else None
  }

  function ParseStrategy(value: string): Option<Strategy> {
    var n := Normalized(value);
    if n == "" then Some(DefaultStrategy)
    else if n == "ALWAYS" then Some(Always)
    else if n == "NOT_NULL" then Some(NotNull)
    else if n == "NOT_EMPTY" then Some(NotEmpty)
    else if n == "NOT_ZERO" then Some(NotZero)
    else if n == "NEVER" then Some(Never)
    else None
  }

  function ParseFill(value: string): Option<FillKind> {
    var n := Normalized(value);
    if n == "" || n == "DEFAULT" || n == "NONE" then Some(NoFill)
    else if n == "INSERT" then Some(InsertFill)
    else if n == "UPDATE" then Some(UpdateFill)
    else if n == "INSERT_UPDATE" then Some(InsertUpdateFill)
    else None
  }

  /** Upper-case words joined by underscores, as the names of the options are. */
  predicate OptionName(s: string) {
    && s != "" && s[0] != '_' && s[|s| - 1] != '_'
    && forall i :: 0 <= i < |s| ==> 'A' <= s[i] <= 'Z' || s[i] == '_'
  }

  /** The ways an option is written: as it is, in lower case, and in lower case with hyphens. */
  predicate Spelling(s: string, t: string) {
    s == t || s == Text.Lower(t) || s == Text.Lower(Text.ReplaceAll(t, '_', '-'))
  }

  lemma SpellingBack(s: string, t: string)
    requires OptionName(t) && Spelling(s, t)
    ensures Solid(s) && Printable(s) && Normalized(s) == t
  {
    hide Text.TrimSpace;
    assert forall i :: 0 <= i < |s| ==> s[i] == '-' || s[i] == '_' || 'A' <= s[i] <= 'Z' || 'a' <= s[i] <= 'z';
    SolidTrim(s);
    assert |Normalized(s)| == |t|;
    assert forall i :: 0 <= i < |s| ==> Normalized(s)[i] == t[i];
  }

  lemma IdName(id: IdKind)
    requires id != NoId
    ensures OptionName(IdText(id))
  {
  }

  lemma StrategyName(strategy: Strategy)
    requires strategy != DefaultStrategy
    ensures OptionName(StrategyText(strategy))
  {
  }

  lemma FillName(fill: FillKind)
    requires fill != NoFill
    ensures OptionName(FillText(fill))
  {
  }

  lemma IdTypeBack(t: IdKind)
    requires t != NoId
    ensures Solid(IdText(t)) && Printable(IdText(t)) && ParseIdType(IdText(t)) == Some(t)
  {
    hide Normalized, Text.TrimSpace, Solid, Printable;
    IdName(t);
    SpellingBack(IdText(t), IdText(t));
  }

  lemma StrategyBack(t: Strategy)
    requires t != DefaultStrategy
    ensures Solid(ReverseStrategy(t)) && Printable(ReverseStrategy(t)) && ParseStrategy(ReverseStrategy(t)) == Some(t)
  {
    hide Normalized, Text.TrimSpace, Solid, Printable, ReverseStrategy, OptionName, Spelling;
    StrategyName(t);
    StrategySpelling(t);
    SpellingBack(ReverseStrategy(t), StrategyText(t));
  }

  lemma StrategySpelling(t: Strategy)
    ensures Spelling(ReverseStrategy(t), StrategyText(t))
  {
  }

  lemma FillBack(t: FillKind)
    requires t != NoFill
    ensures Solid(ReverseFill(t)) && Printable(ReverseFill(t)) && ParseFill(ReverseFill(t)) == Some(t)
  {
    hide Normalized, Text.TrimSpace, Solid, Printable, ReverseFill, OptionName, Spelling;
    FillName(t);
    FillSpelling(t);
    SpellingBack(ReverseFill(t), FillText(t));
  }

  lemma FillSpelling(t: FillKind)
    ensures Spelling(ReverseFill(t), FillText(t))
  {
  }

  datatype ColumnModel = ColumnModel(
    fieldName: string, fieldType: string, columnName: string, keyColumn: string, updateExpression: string,
    primaryKey: bool, autoIncrement: bool, idType: IdKind, nullable: Option<bool>, size: Option<GoInt>,
    numericScale: Option<GoInt>, dbType: string, defaultValue: string, typeHandler: string, condition: string,
    selectDisabled: bool, insertStrategy: Strategy, updateStrategy: Strategy, whereStrategy: Strategy, orderBy: bool,
    orderDesc: bool, orderPriority: GoInt, version: bool, softDelete: bool, createdAt: bool, updatedAt: bool,
    fill: FillKind, transient: bool)

  function StringAttr(s: string): Option<TagValue> {
    if Text.TrimSpace(s) == "" then None else Some(Str(Text.TrimSpace(s)))
  }

  function Flag(b: bool): Option<TagValue> {
    if b then Some(Boolean(true)) else None
  }

  function Number(i: Option<GoInt>): Option<TagValue> {
    match i case None => None case Some(n) => Some(Int(n))
  }

  /** The attribute that stands for a column's value under a key. */
  function AttrOf(c: ColumnModel, k: Key): Option<TagValue> {
    match k
    case Column => StringAttr(c.columnName)
    case PrimaryKey => Flag(c.primaryKey)
    case AutoIncrement => Flag(c.autoIncrement)
    case IdType => StringAttr(IdText(c.idType))
    case Nullable => (match c.nullable case None => None case Some(b) => Some(Boolean(b)))
    case Size => Number(c.size)
    case NumericScale => Number(c.numericScale)
    case Type => StringAttr(c.dbType)
    case Default => StringAttr(c.defaultValue)
    case TypeHandler => StringAttr(c.typeHandler)
    case KeyColumn => StringAttr(c.keyColumn)
    case Update => StringAttr(c.updateExpression)
    case Condition => StringAttr(c.condition)
    case Select => if c.selectDisabled then Some(Boolean(false)) else None
    case InsertStrategy => StringAttr(ReverseStrategy(c.insertStrategy))
    case UpdateStrategy => StringAttr(ReverseStrategy(c.updateStrategy))
    case WhereStrategy => StringAttr(ReverseStrategy(c.whereStrategy))
    case OrderBy => Flag(c.orderBy)
    case OrderDesc => Flag(c.orderDesc)
    case OrderPriority => if c.orderPriority != 0 then Some(Int(c.orderPriority)) else None
    case Version => Flag(c.version)
    case SoftDelete => Flag(c.softDelete)
    case CreatedAt => Flag(c.createdAt)
    case UpdatedAt => Flag(c.updatedAt)
    case Fill => StringAttr(ReverseFill(c.fill))
    case UpdateExpression | Transient => None
  }

  // ---- printing a column ----

  /** How many keys are printed; the two after them are read but never printed. */
  const PRINTED := 25

  /** The keys in the order in which they are printed. */
  function KeyAt(n: nat): Key {
    match n
    case 0 => Column
    case 1 => PrimaryKey
    case 2 => AutoIncrement
    case 3 => IdType
    case 4 => Nullable
    case 5 => Size
    case 6 => NumericScale
    case 7 => Type
    case 8 => Default
    case 9 => TypeHandler
    case 10 => KeyColumn
    case 11 => Update
    case 12 => Condition
    case 13 => Select
    case 14 => InsertStrategy
    case 15 => UpdateStrategy
    case 16 => WhereStrategy
    case 17 => OrderBy
    case 18 => OrderDesc
    case 19 => OrderPriority
    case 20 => Version
    case 21 => SoftDelete
    case 22 => CreatedAt
    case 23 => UpdatedAt
    case 24 => Fill
    case 25 => UpdateExpression
    case _ => Transient
  }

  function Position(k: Key): nat {
    match k
    case Column => 0
    case PrimaryKey => 1
    case AutoIncrement => 2
    case IdType => 3
    case Nullable => 4
    case Size => 5
    case NumericScale => 6
    case Type => 7
    case Default => 8
    case TypeHandler => 9
    case KeyColumn => 10
    case Update => 11
    case Condition => 12
    case Select => 13
    case InsertStrategy => 14
    case UpdateStrategy => 15
    case WhereStrategy => 16
    case OrderBy => 17
    case OrderDesc => 18
    case OrderPriority => 19
    case Version => 20
    case SoftDelete => 21
    case CreatedAt => 22
    case UpdatedAt => 23
    case Fill => 24
    case UpdateExpression => 25
    case Transient => 26
  }

  lemma PositionAt(n: nat, k: Key)
    requires n < PRINTED
    ensures Position(KeyAt(n)) == n
    ensures Position(k) == n ==> k == KeyAt(n)
  {
  }

  /** One more attribute after those already printed, if the column has it. */
  function Printed(items: seq<string>, k: Key, v: Option<TagValue>): Result<seq<string>, Error> {
    match v
    case None => Ok(items)
    case Some(value) => if value.Str? && !Printable(value.s) then Err(Unsupported(k)) else Ok(items + [Show(k, value)])
  }

  /** The items of the first n keys, or the first text that cannot be printed. */
  function PrintFirst(c: ColumnModel, n: nat): Result<seq<string>, Error>
    requires n <= PRINTED
  {
    if n == 0 then Ok([])
    else
      match PrintFirst(c, n - 1)
      case Err(e) => Err(e)
      case Ok(items) => Printed(items, KeyAt(n - 1), AttrOf(c, KeyAt(n - 1)))
  }

  function PrintTag(c: ColumnModel): Result<string, Error> {
    match PrintFirst(c, PRINTED)
    case Err(e) => Err(e)
    case Ok(items) => Ok(Text.Join(items, ";"))
  }

  lemma {:induction false} ErrorStays(c: ColumnModel, n: nat, m: nat)
    requires n <= m <= PRINTED && PrintFirst(c, n).Err?
    ensures PrintFirst(c, m) == PrintFirst(c, n)
    decreases m
  {
    hide AttrOf, KeyAt;
    if n < m { ErrorStays(c, n, m - 1); }
  }

  lemma PrintNext(c: ColumnModel, n: nat, items: seq<string>)
    requires n < PRINTED && PrintFirst(c, n) == Ok(items)
    ensures PrintFirst(c, n + 1) == Printed(items, KeyAt(n), AttrOf(c, KeyAt(n)))
    ensures PrintFirst(c, n + 1).Err? ==> PrintTag(c) == Err(Unsupported(KeyAt(n)))
  {
    hide AttrOf, KeyAt;
    if PrintFirst(c, n + 1).Err? { ErrorStays(c, n + 1, PRINTED); }
  }

  /** The list of items that the printer appends to. */
  class TagPrinter {
    const column: ColumnModel
    var items: seq<string>
    ghost var count: nat

    constructor (column: ColumnModel)
      ensures this.column == column && count == 0 && Valid()
    {
      this.column := column;
      items := [];
      count := 0;
    }

    /** The items are those of the keys dealt with so far. */
    ghost predicate Valid()
      reads this
    {
      count <= PRINTED && PrintFirst(column, count) == Ok(items)
    }

    method AppendReverseTagString(k: Key, text: string) returns (error: Option<Error>)
      requires Valid() && count < PRINTED && k == KeyAt(count) && AttrOf(column, k) == StringAttr(text)
      modifies this
      ensures match error
              case None => Valid() && count == old(count) + 1
              case Some(e) => PrintTag(column) == Err(e)
    {
      hide Name, Text.TrimSpace, Printable, AttrOf, KeyAt, PrintFirst;
      PrintNext(column, count, items);
      count := count + 1;
      var value := Text.TrimSpace(text);
      if value == "" {
        return None;
      }
      if !Printable(value) {
        return Some(Unsupported(k));
      }
      items := items + [Name(k) + "='" + value + "'"];
      assert Name(k) + "='" + value + "'" == Show(k, Str(value));
      return None;
    }

    method AppendReverseTagBool(k: Key, value: Option<bool>)
      requires Valid() && count < PRINTED && k == KeyAt(count)
      requires AttrOf(column, k) == match value case None => None case Some(b) => Some(Boolean(b))
      modifies this
      ensures Valid() && count == old(count) + 1
    {
      hide AttrOf, KeyAt, PrintFirst;
      PrintNext(column, count, items);
      count := count + 1;
      if value.Some? {
        items := items + [Name(k) + "=" + if value.value then "true" else "false"];
      }
    }

    method AppendReverseTagInt(k: Key, value: Option<GoInt>)
      requires Valid() && count < PRINTED && k == KeyAt(count)
      requires AttrOf(column, k) == match value case None => None case Some(i) => Some(Int(i))
      modifies this
      ensures Valid() && count == old(count) + 1
    {
      hide AttrOf, KeyAt, PrintFirst;
      PrintNext(column, count, items);
      count := count + 1;
      if value.Some? {
        items := items + [Name(k) + "=" + Itoa(value.value)];
      }
    }

    method AppendIdentity() returns (error: Option<Error>)
      requires Valid() && count == 0
      modifies this
      ensures match error case None => Valid() && count == 4 case Some(e) => PrintTag(column) == Err(e)
    {
      hide PrintFirst, PrintTag, Text.TrimSpace;
      error := AppendReverseTagString(Column, column.columnName);
      if error.Some? { return; }
      AppendReverseTagBool(PrimaryKey, When(column.primaryKey, true));
      AppendReverseTagBool(AutoIncrement, When(column.autoIncrement, true));
      error := AppendReverseTagString(IdType, IdText(column.idType));
    }

    method AppendSizes()
      requires Valid() && count == 4
      modifies this
      ensures Valid() && count == 7
    {
      hide PrintFirst, Text.TrimSpace;
      AppendReverseTagBool(Nullable, column.nullable);
      AppendReverseTagInt(Size, column.size);
      AppendReverseTagInt(NumericScale, column.numericScale);
    }

    method AppendTexts() returns (error: Option<Error>)
      requires Valid() && count == 7
      modifies this
      ensures match error case None => Valid() && count == 13 case Some(e) => PrintTag(column) == Err(e)
    {
      hide PrintFirst, PrintTag, Text.TrimSpace;
      var texts := [
        (Type, column.dbType), (Default, column.defaultValue), (TypeHandler, column.typeHandler),
        (KeyColumn, column.keyColumn), (Update, column.updateExpression), (Condition, column.condition)];
      for i := 0 to |texts|
        invariant Valid() && count == 7 + i
      {
        assert texts[i].0 == KeyAt(7 + i);
        error := AppendReverseTagString(texts[i].0, texts[i].1);
        if error.Some? { return; }
      }
      return None;
    }

    method AppendStrategies() returns (error: Option<Error>)
      requires Valid() && count == 13
      modifies this
      ensures match error case None => Valid() && count == 17 case Some(e) => PrintTag(column) == Err(e)
    {
      hide PrintFirst, PrintTag, Text.TrimSpace, ReverseStrategy;
      AppendReverseTagBool(Select, When(column.selectDisabled, false));
      error := AppendReverseTagString(InsertStrategy, ReverseStrategy(column.insertStrategy));
      if error.Some? { return; }
      error := AppendReverseTagString(UpdateStrategy, ReverseStrategy(column.updateStrategy));
      if error.Some? { return; }
      error := AppendReverseTagString(WhereStrategy, ReverseStrategy(column.whereStrategy));
    }

    method AppendOrder()
      requires Valid() && count == 17
      modifies this
      ensures Valid() && count == 20
    {
      hide PrintFirst, Text.TrimSpace;
      AppendReverseTagBool(OrderBy, When(column.orderBy, true));
      AppendReverseTagBool(OrderDesc, When(column.orderDesc, true));
      AppendReverseTagInt(OrderPriority, When(column.orderPriority != 0, column.orderPriority));
    }

    method AppendMarks() returns (error: Option<Error>)
      requires Valid() && count == 20
      modifies this
      ensures match error case None => Valid() && count == PRINTED case Some(e) => PrintTag(column) == Err(e)
    {
      hide PrintFirst, PrintTag, Text.TrimSpace, ReverseFill;
      AppendReverseTagBool(Version, When(column.version, true));
      AppendReverseTagBool(SoftDelete, When(column.softDelete, true));
      AppendReverseTagBool(CreatedAt, When(column.createdAt, true));
      AppendReverseTagBool(UpdatedAt, When(column.updatedAt, true));
      error := AppendReverseTagString(Fill, ReverseFill(column.fill));
    }
  }

  function When<T>(condition: bool, value: T): Option<T> {
    if condition then Some(value) else None
  }

  method ColumnStructTag(column: ColumnModel) returns (r: Result<string, Error>)
    ensures r == PrintTag(column)
  {
    hide PrintFirst;
    var printer := new TagPrinter(column);
    var error := printer.AppendIdentity();
    if error.Some? {
      return Err(error.value);
    }
    printer.AppendSizes();
    error := printer.AppendTexts();
    if error.None? { error := printer.AppendStrategies(); }
    if error.Some? {
      return Err(error.value);
    }
    printer.AppendOrder();
    error := printer.AppendMarks();
    if error.Some? {
      return Err(error.value);
    }
    return Ok(Text.Join(printer.items, ";"));
  }

  // ---- when a column can be printed ----

  /** The texts of a column that are printed as they are. */
  function Texts(c: ColumnModel): seq<string> {
    [c.columnName, c.dbType, c.defaultValue, c.typeHandler, c.keyColumn, c.updateExpression, c.condition]
  }

  predicate PrintableColumn(c: ColumnModel) {
    forall t <- Texts(c) :: Printable(Text.TrimSpace(t))
  }

  predicate PrintableKey(c: ColumnModel, k: Key) {
    AttrOf(c, k).Some? && AttrOf(c, k).value.Str? ==> Printable(AttrOf(c, k).value.s)
  }

  lemma {:induction false} PrintFirstOk(c: ColumnModel, n: nat)
    requires n <= PRINTED
    ensures PrintFirst(c, n).Ok? <==> forall i :: 0 <= i < n ==> PrintableKey(c, KeyAt(i))
  {
    hide AttrOf, KeyAt, Printable;
    if n > 0 { PrintFirstOk(c, n - 1); }
  }

  function StrategyAttr(t: Strategy): Option<TagValue> {
    if t == DefaultStrategy then None else Some(Str(ReverseStrategy(t)))
  }

  lemma StringAttrIs(s: string)
    ensures StringAttr("") == None
    ensures Solid(s) ==> StringAttr(s) == Some(Str(s))
  {
    if Solid(s) { SolidTrim(s); }
  }

  lemma NoTexts()
    ensures IdText(NoId) == "" && ReverseStrategy(DefaultStrategy) == "" && ReverseFill(NoFill) == ""
  {
  }

  lemma StrategyAttrIs(t: Strategy)
    ensures StringAttr(ReverseStrategy(t)) == StrategyAttr(t)
            && (t != DefaultStrategy ==> Printable(ReverseStrategy(t)))
  {
    hide StringAttr, Solid, Printable, ReverseStrategy;
    NoTexts();
    StringAttrIs(ReverseStrategy(t));
    if t != DefaultStrategy { StrategyBack(t); }
  }

  /** What is printed for an option that is set, and nothing for one that is not. */
  lemma EnumAttrs(c: ColumnModel)
    ensures AttrOf(c, IdType) == if c.idType == NoId then None else Some(Str(IdText(c.idType)))
    ensures AttrOf(c, Fill) == if c.fill == NoFill then None else Some(Str(ReverseFill(c.fill)))
    ensures AttrOf(c, InsertStrategy) == StrategyAttr(c.insertStrategy)
    ensures AttrOf(c, UpdateStrategy) == StrategyAttr(c.updateStrategy)
    ensures AttrOf(c, WhereStrategy) == StrategyAttr(c.whereStrategy)
    ensures PrintableKey(c, IdType) && PrintableKey(c, Fill)
    ensures PrintableKey(c, InsertStrategy) && PrintableKey(c, UpdateStrategy) && PrintableKey(c, WhereStrategy)
  {
    hide StringAttr, Solid, Printable, ReverseStrategy, ReverseFill, IdText;
    NoTexts();
    StrategyAttrIs(c.insertStrategy);
    StrategyAttrIs(c.updateStrategy);
    StrategyAttrIs(c.whereStrategy);
    StringAttrIs(IdText(c.idType));
    StringAttrIs(ReverseFill(c.fill));
    if c.idType != NoId { IdTypeBack(c.idType); }
    if c.fill != NoFill { FillBack(c.fill); }
  }

  lemma TextKey(t: string, a: Option<TagValue>)
    requires a == StringAttr(t)
    ensures (a.Some? ==> a.value.Str?) && (Printable(Text.TrimSpace(t)) <==> (a.Some? ==> Printable(a.value.s)))
  {
    hide Text.TrimSpace;
  }

  lemma TextKeys(c: ColumnModel)
    ensures PrintableColumn(c) <==>
      && PrintableKey(c, Column) && PrintableKey(c, Type) && PrintableKey(c, Default) && PrintableKey(c, TypeHandler)
      && PrintableKey(c, KeyColumn) && PrintableKey(c, Update) && PrintableKey(c, Condition)
  {
    hide Text.TrimSpace, Printable, StringAttr;
    TextKey(c.columnName, AttrOf(c, Column));
    TextKey(c.dbType, AttrOf(c, Type));
    TextKey(c.defaultValue, AttrOf(c, Default));
    TextKey(c.typeHandler, AttrOf(c, TypeHandler));
    TextKey(c.keyColumn, AttrOf(c, KeyColumn));
    TextKey(c.updateExpression, AttrOf(c, Update));
    TextKey(c.condition, AttrOf(c, Condition));
    var t := Texts(c);
    assert t[0] == c.columnName && t[1] == c.dbType && t[2] == c.defaultValue && t[3] == c.typeHandler;
    assert t[4] == c.keyColumn && t[5] == c.updateExpression && t[6] == c.condition;
  }

  /** A key that is not a text of the column prints without fail. */
  lemma OtherKeys(c: ColumnModel, k: Key)
    requires KindOf(k) != StringKind || k == UpdateExpression
    ensures PrintableKey(c, k)
  {
    hide Text.TrimSpace, Printable, StringAttr;
  }

  /** A column is printed exactly when no text has a quote, a semicolon, a line break, a carriage return or a tab. */
  lemma PrintsExactly(c: ColumnModel)
    ensures PrintTag(c).Ok? <==> PrintableColumn(c)
  {
    hide PrintableKey, KeyAt, Position, PrintFirst, PrintableColumn;
    PrintFirstOk(c, PRINTED);
    if PrintableColumn(c) { AllPrintable(c); }
    if PrintTag(c).Ok? { TextsPrinted(c); }
  }

  lemma AllPrintable(c: ColumnModel)
    requires PrintableColumn(c)
    ensures forall i :: 0 <= i < PRINTED ==> PrintableKey(c, KeyAt(i))
  {
    hide PrintableKey, KeyAt, Position, PrintFirst, PrintableColumn;
    TextKeys(c);
    EnumAttrs(c);
    forall i | 0 <= i < PRINTED
      ensures PrintableKey(c, KeyAt(i))
    {
      var k := KeyAt(i);
      if KindOf(k) != StringKind || k == UpdateExpression { OtherKeys(c, k); }
    }
  }

  lemma TextsPrinted(c: ColumnModel)
    requires PrintTag(c).Ok?
    ensures PrintableColumn(c)
  {
    hide PrintableKey, KeyAt, Position, PrintFirst, PrintableColumn, PrintTag;
    TextKeys(c);
    KeyPrinted(c, Column);
    KeyPrinted(c, Type);
    KeyPrinted(c, Default);
    KeyPrinted(c, TypeHandler);
    KeyPrinted(c, KeyColumn);
    KeyPrinted(c, Update);
    KeyPrinted(c, Condition);
  }

  lemma KeyPrinted(c: ColumnModel, k: Key)
    requires k != UpdateExpression && k != Transient && PrintTag(c).Ok?
    ensures PrintableKey(c, k)
  {
    hide PrintableKey, PrintFirst;
    PrintFirstOk(c, PRINTED);
    KeyPosition(k);
    assert KeyAt(Position(k)) == k;
  }

  lemma KeyPosition(k: Key)
    ensures KeyAt(Position(k)) == k && (Position(k) < PRINTED <==> k != UpdateExpression && k != Transient)
  {
  }

  // ---- reading a printed column ----

  /** The attributes of the first n keys. */
  function TagFirst(c: ColumnModel, n: nat): Tag {
    map k: Key | Position(k) < n && AttrOf(c, k).Some? :: AttrOf(c, k).value
  }

  lemma TagNext(c: ColumnModel, n: nat)
    requires n < PRINTED
    ensures var k, v := KeyAt(n), AttrOf(c, KeyAt(n));
            && k !in TagFirst(c, n)
            && TagFirst(c, n + 1) == match v case None => TagFirst(c, n) case Some(a) => TagFirst(c, n)[k := a]
  {
    hide AttrOf, KeyAt, Position;
    forall k: Key
      ensures Position(k) < n + 1 <==> Position(k) < n || k == KeyAt(n)
    {
      PositionAt(n, k);
    }
    PositionAt(n, KeyAt(n));
  }

  lemma AttrKind(c: ColumnModel, k: Key)
    ensures AttrOf(c, k).Some? ==> ValueKind(AttrOf(c, k).value) == KindOf(k)
  {
    hide Text.TrimSpace, ReverseStrategy, ReverseFill, IdText;
  }

  lemma {:induction false} ParseMore(parts: seq<string>, last: string, tag: Tag)
    ensures ParseParts(parts + [last], tag)
         == match ParseParts(parts, tag) case Err(e) => Err(e) case Ok(t) => ParsePart(last, t)
    decreases |parts|
  {
    hide ParsePart;
    if parts == [] {
      assert [] + [last] == [last] && [last][1..] == [];
    } else {
      assert (parts + [last])[1..] == parts[1..] + [last];
      var one := ParsePart(parts[0], tag);
      if one.Ok? { ParseMore(parts[1..], last, one.value); }
    }
  }

  predicate GoodItems(items: seq<string>) {
    forall i <- items :: Solid(i) && ';' !in i
  }

  lemma {:induction false} ParseFirst(c: ColumnModel, n: nat)
    requires n <= PRINTED && PrintFirst(c, n).Ok?
    ensures ParseParts(PrintFirst(c, n).value, map[]) == Ok(TagFirst(c, n)) && GoodItems(PrintFirst(c, n).value)
  {
    hide AttrOf, KeyAt, Position, Printable, Show, ParsePart, TagFirst, Solid;
    if n == 0 {
      TagNone(c);
    } else {
      ParseFirst(c, n - 1);
      var k, v := KeyAt(n - 1), AttrOf(c, KeyAt(n - 1));
      TagNext(c, n - 1);
      if v.Some? {
        AttrKind(c, k);
        ShowBack(k, v.value, TagFirst(c, n - 1));
        ParseMore(PrintFirst(c, n - 1).value, Show(k, v.value), map[]);
      }
    }
  }

  lemma TagNone(c: ColumnModel)
    ensures TagFirst(c, 0) == map[]
  {
  }

  /** All attributes of a column. */
  function TagOf(c: ColumnModel): Tag {
    map k: Key | AttrOf(c, k).Some? :: AttrOf(c, k).value
  }

  lemma TagAll(c: ColumnModel)
    ensures TagFirst(c, PRINTED) == TagOf(c)
  {
    hide AttrOf, Position;
    forall k: Key
      ensures AttrOf(c, k).Some? ==> Position(k) < PRINTED
    {
      KeyPosition(k);
      NeverPrinted(c, k);
    }
  }

  lemma NeverPrinted(c: ColumnModel, k: Key)
    ensures k == UpdateExpression || k == Transient ==> AttrOf(c, k).None?
  {
  }

  lemma {:induction false} ColumnFirst(c: ColumnModel, n: nat)
    requires 0 < n <= PRINTED && PrintFirst(c, n).Ok? && Text.TrimSpace(c.columnName) != ""
    ensures PrintFirst(c, n).value != []
  {
    hide Text.TrimSpace, Printable, Show;
    if n == 1 {
      assert KeyAt(0) == Column;
    } else {
      hide AttrOf, KeyAt;
      ColumnFirst(c, n - 1);
    }
  }

  /** Parsing a printed tag gives the attributes of the column. */
  lemma ParsePrinted(c: ColumnModel)
    requires PrintTag(c).Ok? && Text.TrimSpace(c.columnName) != ""
    ensures ParseTag(PrintTag(c).value) == Ok(TagOf(c))
  {
    hide PrintFirst, ParseParts, TagOf, TagFirst, Text.TrimSpace, Split, Text.Join, Solid;
    var items := PrintFirst(c, PRINTED).value;
    ColumnFirst(c, PRINTED);
    ParseFirst(c, PRINTED);
    TagAll(c);
    SplitJoin(items, ';');
    SolidJoin(items);
    SolidTrim(Text.Join(items, ";"));
    SolidNotEmpty(Text.Join(items, ";"));
  }

  lemma SolidNotEmpty(s: string)
    requires Solid(s)
    ensures s != ""
  {
  }

  // ---- building a column from a tag ----

  predicate KindMatches(tag: Tag, k: Key) {
    k in tag ==> ValueKind(tag[k]) == KindOf(k)
  }

  predicate AllMatch(tag: Tag) {
    forall k <- tag :: KindMatches(tag, k)
  }

  lemma Matches(tag: Tag, k: Key)
    requires AllMatch(tag)
    ensures KindMatches(tag, k)
  {
  }

  function TextIn(tag: Tag, k: Key): string {
    if k in tag && tag[k].Str? then tag[k].s else ""
  }

  function FlagIn(tag: Tag, k: Key): Option<bool> {
    if k in tag && tag[k].Boolean? then Some(tag[k].b) else None
  }

  function IsSet(tag: Tag, k: Key): bool {
    FlagIn(tag, k) == Some(true)
  }

  function NumberIn(tag: Tag, k: Key): Option<GoInt> {
    if k in tag && tag[k].Int? then Some(tag[k].i) else None
  }

  function OrZero(i: Option<GoInt>): GoInt {
    if i.Some? then i.value else 0
  }

  const NEW_COLUMN := ColumnModel("", "", "", "", "", false, false, NoId, None, None, None, "", "", "", "", false,
    DefaultStrategy, DefaultStrategy, DefaultStrategy, false, false, 0, false, false, false, false, NoFill, false)

  /** The options of a tag can be read, and it does not give the update expression under both of its names. */
  predicate OptionsParse(tag: Tag) {
    && ParseIdType(TextIn(tag, IdType)).Some? && ParseFill(TextIn(tag, Fill)).Some?
    && ParseStrategy(TextIn(tag, InsertStrategy)).Some? && ParseStrategy(TextIn(tag, UpdateStrategy)).Some?
    && ParseStrategy(TextIn(tag, WhereStrategy)).Some?
    && !(TextIn(tag, Update) != "" && UpdateExpression in tag)
  }

  /** The column a tag describes, unless the tag is refused; a name is derived for a column without one. */
  function Build(fieldName: string, fieldType: string, tag: Tag, derived: string): Option<ColumnModel> {
    var name := if TextIn(tag, Column) != "" then TextIn(tag, Column) else derived;
    if IsSet(tag, Transient) then
      Some(NEW_COLUMN.(fieldName := fieldName, fieldType := fieldType, transient := true))
    else if !AllMatch(tag) || name == "" || !OptionsParse(tag) then None
    else
      var c := NEW_COLUMN.(fieldName := fieldName, fieldType := fieldType, columnName := name);
      Some(FillSecond(FillFirst(c, tag), tag))
  }

  /** The value under a key, whether there is one, and whether it is of another kind. */
  function TagString(tag: Tag, k: Key): Result<Option<string>, Error> {
    if k !in tag then Ok(None) else if tag[k].Str? then Ok(Some(tag[k].s)) else Err(BadValue)
  }

  function TagBool(tag: Tag, k: Key): Result<Option<bool>, Error> {
    if k !in tag then Ok(None) else if tag[k].Boolean? then Ok(Some(tag[k].b)) else Err(BadValue)
  }

  function TagInt(tag: Tag, k: Key): Result<Option<GoInt>, Error> {
    if k !in tag then Ok(None) else if tag[k].Int? then Ok(Some(tag[k].i)) else Err(BadValue)
  }

  /** Fills the fields of a column one after another. */
  class ColumnBuilder {
    const tag: Tag
    var column: ColumnModel

    constructor (tag: Tag, column: ColumnModel)
      ensures this.tag == tag && this.column == column
    {
      this.tag := tag;
      this.column := column;
    }

    method ReadText(k: Key) returns (text: string, ok: bool)
      requires KindOf(k) == StringKind
      ensures ok <==> KindMatches(tag, k)
      ensures text == TextIn(tag, k)
    {
      var r := TagString(tag, k);
      if r.Err? { return "", false; }
      return if r.value.Some? then r.value.value else "", true;
    }

    method ReadFlag(k: Key) returns (flag: Option<bool>, ok: bool)
      requires KindOf(k) == BoolKind
      ensures ok <==> KindMatches(tag, k)
      ensures flag == FlagIn(tag, k)
    {
      var r := TagBool(tag, k);
      if r.Err? { return None, false; }
      return r.value, true;
    }

    method ReadNumber(k: Key) returns (number: Option<GoInt>, ok: bool)
      requires KindOf(k) == IntKind
      ensures ok <==> KindMatches(tag, k)
      ensures number == NumberIn(tag, k)
    {
      var r := TagInt(tag, k);
      if r.Err? { return None, false; }
      return r.value, true;
    }

    method BuildStrategies() returns (ok: bool)
      modifies this
      ensures ok <==>
        && KindMatches(tag, InsertStrategy) && KindMatches(tag, UpdateStrategy) && KindMatches(tag, WhereStrategy)
        && ParseStrategy(TextIn(tag, InsertStrategy)).Some? && ParseStrategy(TextIn(tag, UpdateStrategy)).Some?
        && ParseStrategy(TextIn(tag, WhereStrategy)).Some?
      ensures ok ==> column == old(column).(
        insertStrategy := ParseStrategy(TextIn(tag, InsertStrategy)).value,
        updateStrategy := ParseStrategy(TextIn(tag, UpdateStrategy)).value,
        whereStrategy := ParseStrategy(TextIn(tag, WhereStrategy)).value)
    {
      hide ParseStrategy, KindMatches, TextIn;
      var text, fine := ReadText(InsertStrategy);
      if !fine || ParseStrategy(text).None? { return false; }
      column := column.(insertStrategy := ParseStrategy(text).value);
      text, fine := ReadText(UpdateStrategy);
      if !fine || ParseStrategy(text).None? { return false; }
      column := column.(updateStrategy := ParseStrategy(text).value);
      text, fine := ReadText(WhereStrategy);
      if !fine || ParseStrategy(text).None? { return false; }
      column := column.(whereStrategy := ParseStrategy(text).value);
      return true;
    }

    method BuildOptions() returns (ok: bool)
      modifies this
      ensures ok <==>
        && KindMatches(tag, IdType) && KindMatches(tag, Fill)
        && KindMatches(tag, InsertStrategy) && KindMatches(tag, UpdateStrategy) && KindMatches(tag, WhereStrategy)
        && ParseIdType(TextIn(tag, IdType)).Some? && ParseFill(TextIn(tag, Fill)).Some?
        && ParseStrategy(TextIn(tag, InsertStrategy)).Some? && ParseStrategy(TextIn(tag, UpdateStrategy)).Some?
        && ParseStrategy(TextIn(tag, WhereStrategy)).Some?
      ensures ok ==> column == old(column).(
        idType := ParseIdType(TextIn(tag, IdType)).value, fill := ParseFill(TextIn(tag, Fill)).value,
        insertStrategy := ParseStrategy(TextIn(tag, InsertStrategy)).value,
        updateStrategy := ParseStrategy(TextIn(tag, UpdateStrategy)).value,
        whereStrategy := ParseStrategy(TextIn(tag, WhereStrategy)).value)
    {
      hide ParseIdType, ParseStrategy, ParseFill, KindMatches, TextIn;
      var text, fine := ReadText(IdType);
      if !fine || ParseIdType(text).None? { return false; }
      column := column.(idType := ParseIdType(text).value);
      text, fine := ReadText(Fill);
      if !fine || ParseFill(text).None? { return false; }
      column := column.(fill := ParseFill(text).value);
      ok := BuildStrategies();
    }

    method BuildUpdate() returns (ok: bool)
      modifies this
      ensures ok <==> KindMatches(tag, Update) && KindMatches(tag, UpdateExpression) &&
                      !(TextIn(tag, Update) != "" && UpdateExpression in tag)
      ensures ok ==> column == old(column).(
        updateExpression := if UpdateExpression in tag then TextIn(tag, UpdateExpression) else TextIn(tag, Update))
    {
      var text, fine := ReadText(Update);
      if !fine { return false; }
      column := column.(updateExpression := text);
      text, fine := ReadText(UpdateExpression);
      if !fine { return false; }
      if UpdateExpression in tag {
        if column.updateExpression != "" { return false; }
        column := column.(updateExpression := text);
      }
      return true;
    }

    method BuildNumbers() returns (ok: bool)
      modifies this
      ensures ok <==> KindMatches(tag, Size) && KindMatches(tag, NumericScale) && KindMatches(tag, OrderPriority)
      ensures ok ==> column == old(column).(size := NumberIn(tag, Size), numericScale := NumberIn(tag, NumericScale),
        orderPriority := OrZero(NumberIn(tag, OrderPriority)))
    {
      hide KindMatches, NumberIn;
      var number, fine := ReadNumber(Size);
      if !fine { return false; }
      column := column.(size := number);
      number, fine := ReadNumber(NumericScale);
      if !fine { return false; }
      column := column.(numericScale := number);
      number, fine := ReadNumber(OrderPriority);
      if !fine { return false; }
      column := column.(orderPriority := OrZero(number));
      return true;
    }

    method BuildTexts() returns (ok: bool)
      modifies this
      ensures ok <==> KindMatches(tag, Type) && KindMatches(tag, Default) && KindMatches(tag, TypeHandler) &&
                      KindMatches(tag, KeyColumn) && KindMatches(tag, Condition)
      ensures ok ==> column == old(column).(dbType := TextIn(tag, Type), defaultValue := TextIn(tag, Default),
        typeHandler := TextIn(tag, TypeHandler), keyColumn := TextIn(tag, KeyColumn),
          condition := TextIn(tag, Condition))
    {
      hide KindMatches, TextIn;
      var text, fine := ReadText(Type);
      if !fine { return false; }
      column := column.(dbType := text);
      text, fine := ReadText(Default);
      if !fine { return false; }
      column := column.(defaultValue := text);
      text, fine := ReadText(TypeHandler);
      if !fine { return false; }
      column := column.(typeHandler := text);
      text, fine := ReadText(KeyColumn);
      if !fine { return false; }
      column := column.(keyColumn := text);
      text, fine := ReadText(Condition);
      if !fine { return false; }
      column := column.(condition := text);
      return true;
    }

    method BuildKeys() returns (ok: bool)
      modifies this
      ensures ok <==> KindMatches(tag, PrimaryKey) && KindMatches(tag, AutoIncrement) && KindMatches(tag, Nullable) &&
                      KindMatches(tag, Select)
      ensures ok ==> column == old(column).(
        primaryKey := IsSet(tag, PrimaryKey), autoIncrement := IsSet(tag, AutoIncrement),
        nullable := FlagIn(tag, Nullable), selectDisabled := FlagIn(tag, Select) == Some(false))
    {
      hide KindMatches, FlagIn;
      var flag, fine := ReadFlag(PrimaryKey);
      if !fine { return false; }
      column := column.(primaryKey := flag == Some(true));
      flag, fine := ReadFlag(AutoIncrement);
      if !fine { return false; }
      column := column.(autoIncrement := flag == Some(true));
      flag, fine := ReadFlag(Nullable);
      if !fine { return false; }
      column := column.(nullable := flag);
      flag, fine := ReadFlag(Select);
      if !fine { return false; }
      column := column.(selectDisabled := flag == Some(false));
      return true;
    }

    method BuildOrder() returns (ok: bool)
      modifies this
      ensures ok <==> KindMatches(tag, OrderBy) && KindMatches(tag, OrderDesc) && KindMatches(tag, Version)
      ensures ok ==> column == old(column).(orderBy := IsSet(tag, OrderBy), orderDesc := IsSet(tag, OrderDesc),
        version := IsSet(tag, Version))
    {
      hide KindMatches, FlagIn;
      var flag, fine := ReadFlag(OrderBy);
      if !fine { return false; }
      column := column.(orderBy := flag == Some(true));
      flag, fine := ReadFlag(OrderDesc);
      if !fine { return false; }
      column := column.(orderDesc := flag == Some(true));
      flag, fine := ReadFlag(Version);
      if !fine { return false; }
      column := column.(version := flag == Some(true));
      return true;
    }

    method BuildMarks() returns (ok: bool)
      modifies this
      ensures ok <==> KindMatches(tag, SoftDelete) && KindMatches(tag, CreatedAt) && KindMatches(tag, UpdatedAt)
      ensures ok ==> column == old(column).(softDelete := IsSet(tag, SoftDelete), createdAt := IsSet(tag, CreatedAt),
        updatedAt := IsSet(tag, UpdatedAt))
    {
      hide KindMatches, FlagIn;
      var flag, fine := ReadFlag(SoftDelete);
      if !fine { return false; }
      column := column.(softDelete := flag == Some(true));
      flag, fine := ReadFlag(CreatedAt);
      if !fine { return false; }
      column := column.(createdAt := flag == Some(true));
      flag, fine := ReadFlag(UpdatedAt);
      if !fine { return false; }
      column := column.(updatedAt := flag == Some(true));
      return true;
    }

    method BuildFirst() returns (ok: bool)
      modifies this
      ensures ok <==> FirstMatches(tag) && OptionsParse(tag)
      ensures ok ==> column == FillFirst(old(column), tag)
    {
      hide KindMatches, FlagIn, TextIn, ParseIdType, ParseFill, ParseStrategy, IsSet;
      ok := BuildKeys();
      if !ok { return; }
      ok := BuildOptions();
      if !ok { return; }
      ok := BuildUpdate();
    }

    method BuildSecond() returns (ok: bool)
      modifies this
      ensures ok <==> SecondMatches(tag)
      ensures ok ==> column == FillSecond(old(column), tag)
    {
      hide KindMatches, FlagIn, TextIn, NumberIn, IsSet, OrZero;
      ok := BuildNumbers();
      if !ok { return; }
      ok := BuildTexts();
      if !ok { return; }
      ok := BuildOrder();
      if !ok { return; }
      ok := BuildMarks();
    }
  }

  predicate FirstMatches(tag: Tag) {
    && KindMatches(tag, PrimaryKey) && KindMatches(tag, AutoIncrement) && KindMatches(tag, Nullable)
    && KindMatches(tag, Select) && KindMatches(tag, IdType) && KindMatches(tag, Fill)
    && KindMatches(tag, InsertStrategy) && KindMatches(tag, UpdateStrategy) && KindMatches(tag, WhereStrategy)
    && KindMatches(tag, Update) && KindMatches(tag, UpdateExpression)
  }

  predicate SecondMatches(tag: Tag) {
    && KindMatches(tag, Size) && KindMatches(tag, NumericScale) && KindMatches(tag, OrderPriority)
    && KindMatches(tag, Type) && KindMatches(tag, Default) && KindMatches(tag, TypeHandler)
    && KindMatches(tag, KeyColumn) && KindMatches(tag, Condition)
    && KindMatches(tag, OrderBy) && KindMatches(tag, OrderDesc) && KindMatches(tag, Version)
    && KindMatches(tag, SoftDelete) && KindMatches(tag, CreatedAt) && KindMatches(tag, UpdatedAt)
  }

  function FillFirst(c: ColumnModel, tag: Tag): ColumnModel
    requires OptionsParse(tag)
  {
    c.(primaryKey := IsSet(tag, PrimaryKey), autoIncrement := IsSet(tag, AutoIncrement),
       nullable := FlagIn(tag, Nullable), selectDisabled := FlagIn(tag, Select) == Some(false),
       idType := ParseIdType(TextIn(tag, IdType)).value, fill := ParseFill(TextIn(tag, Fill)).value,
       insertStrategy := ParseStrategy(TextIn(tag, InsertStrategy)).value,
       updateStrategy := ParseStrategy(TextIn(tag, UpdateStrategy)).value,
       whereStrategy := ParseStrategy(TextIn(tag, WhereStrategy)).value,
       updateExpression := if UpdateExpression in tag then TextIn(tag, UpdateExpression) else TextIn(tag, Update))
  }

  function FillSecond(c: ColumnModel, tag: Tag): ColumnModel {
    c.(size := NumberIn(tag, Size), numericScale := NumberIn(tag, NumericScale),
       orderPriority := OrZero(NumberIn(tag, OrderPriority)), dbType := TextIn(tag, Type),
       defaultValue := TextIn(tag, Default), typeHandler := TextIn(tag, TypeHandler),
         keyColumn := TextIn(tag, KeyColumn),
       condition := TextIn(tag, Condition), orderBy := IsSet(tag, OrderBy), orderDesc := IsSet(tag, OrderDesc),
       version := IsSet(tag, Version), softDelete := IsSet(tag, SoftDelete), createdAt := IsSet(tag, CreatedAt),
       updatedAt := IsSet(tag, UpdatedAt))
  }

  /** All keys match when every one of them does. */
  lemma AllKindsMatch(tag: Tag)
    requires FirstMatches(tag) && SecondMatches(tag) && KindMatches(tag, Column) && KindMatches(tag, Transient)
    ensures AllMatch(tag)
  {
    hide KindMatches;
    forall k: Key
      ensures KindMatches(tag, k)
    {
      match k {
        case Column => case Type => case Default => case IdType => case Fill => case TypeHandler => case KeyColumn =>
        case Update => case UpdateExpression => case Condition => case InsertStrategy => case UpdateStrategy =>
        case WhereStrategy => case PrimaryKey => case AutoIncrement => case Nullable => case Select => case Version =>
        case SoftDelete => case CreatedAt => case UpdatedAt => case OrderBy => case OrderDesc => case Transient =>
        case Size => case NumericScale => case OrderPriority =>
      }
    }
  }

  lemma EveryKindMatches(tag: Tag)
    requires AllMatch(tag)
    ensures FirstMatches(tag) && SecondMatches(tag) && KindMatches(tag, Column) && KindMatches(tag, Transient)
  {
    hide ValueKind, KindOf;
    assert forall k: Key :: KindMatches(tag, k);
    hide KindMatches;
  }

  method BuildColumn(fieldName: string, fieldType: string, tag: Tag, derived: string) returns (r: Option<ColumnModel>)
    ensures r == Build(fieldName, fieldType, tag, derived)
  {
    hide OptionsParse, KindMatches, AllMatch, FirstMatches, SecondMatches, TextIn, FlagIn, FillFirst, FillSecond;
    if AllMatch(tag) { EveryKindMatches(tag); }
    var b := new ColumnBuilder(tag, NEW_COLUMN.(fieldName := fieldName, fieldType := fieldType));
    var flag, ok := b.ReadFlag(Transient);
    if !ok { FlagKind(tag, Transient); return None; }
    if flag == Some(true) { return Some(b.column.(transient := true)); }
    var name;
    name, ok := b.ReadText(Column);
    if !ok { return None; }
    b.column := b.column.(columnName := if name == "" then derived else name);
    if b.column.columnName == "" { return None; }
    ok := b.BuildFirst();
    if !ok { return None; }
    ok := b.BuildSecond();
    if !ok { return None; }
    AllKindsMatch(tag);
    return Some(b.column);
  }

  lemma FlagKind(tag: Tag, k: Key)
    requires !KindMatches(tag, k) && KindOf(k) == BoolKind
    ensures FlagIn(tag, k).None?
  {
  }

  // ---- the round trip ----

  /** The column with its texts trimmed. */
  function Trimmed(c: ColumnModel): ColumnModel {
    c.(columnName := Text.TrimSpace(c.columnName), keyColumn := Text.TrimSpace(c.keyColumn),
       updateExpression := Text.TrimSpace(c.updateExpression), dbType := Text.TrimSpace(c.dbType),
       defaultValue := Text.TrimSpace(c.defaultValue), typeHandler := Text.TrimSpace(c.typeHandler),
       condition := Text.TrimSpace(c.condition))
  }

  lemma TextBack(c: ColumnModel, k: Key, t: string)
    requires AttrOf(c, k) == StringAttr(t)
    ensures TextIn(TagOf(c), k) == Text.TrimSpace(t)
  {
    hide AttrOf, Text.TrimSpace;
  }

  lemma FlagBack(c: ColumnModel, k: Key, b: bool)
    requires AttrOf(c, k) == Flag(b)
    ensures IsSet(TagOf(c), k) == b
  {
    hide AttrOf;
  }

  lemma NumberBack(c: ColumnModel, k: Key, n: Option<GoInt>)
    requires AttrOf(c, k) == Number(n)
    ensures NumberIn(TagOf(c), k) == n
  {
    hide AttrOf;
  }

  lemma SwitchBack(c: ColumnModel)
    ensures FlagIn(TagOf(c), Nullable) == c.nullable
    ensures FlagIn(TagOf(c), Select) == if c.selectDisabled then Some(false) else None
    ensures OrZero(NumberIn(TagOf(c), OrderPriority)) == c.orderPriority
    ensures UpdateExpression !in TagOf(c) && !IsSet(TagOf(c), Transient)
  {
    SwitchAttrs(c);
    hide AttrOf;
  }

  lemma SwitchAttrs(c: ColumnModel)
    ensures AttrOf(c, Nullable) == match c.nullable case None => None case Some(b) => Some(Boolean(b))
    ensures AttrOf(c, Select) == if c.selectDisabled then Some(Boolean(false)) else None
    ensures AttrOf(c, OrderPriority) == if c.orderPriority != 0 then Some(Int(c.orderPriority)) else None
    ensures AttrOf(c, UpdateExpression) == None && AttrOf(c, Transient) == None
  {
    hide StringAttr, Flag, Number;
  }

  lemma EnumBack(c: ColumnModel)
    ensures ParseIdType(TextIn(TagOf(c), IdType)) == Some(c.idType)
    ensures ParseFill(TextIn(TagOf(c), Fill)) == Some(c.fill)
    ensures ParseStrategy(TextIn(TagOf(c), InsertStrategy)) == Some(c.insertStrategy)
    ensures ParseStrategy(TextIn(TagOf(c), UpdateStrategy)) == Some(c.updateStrategy)
    ensures ParseStrategy(TextIn(TagOf(c), WhereStrategy)) == Some(c.whereStrategy)
  {
    hide AttrOf, ParseIdType, ParseFill, ParseStrategy, ReverseStrategy, ReverseFill, IdText, Solid, Printable;
    EnumAttrs(c);
    NothingParsed();
    if c.idType != NoId { IdTypeBack(c.idType); }
    if c.fill != NoFill { FillBack(c.fill); }
    if c.insertStrategy != DefaultStrategy { StrategyBack(c.insertStrategy); }
    if c.updateStrategy != DefaultStrategy { StrategyBack(c.updateStrategy); }
    if c.whereStrategy != DefaultStrategy { StrategyBack(c.whereStrategy); }
  }

  lemma NothingParsed()
    ensures ParseIdType("") == Some(NoId) && ParseFill("") == Some(NoFill) && ParseStrategy("") == Some(DefaultStrategy)
  {
    assert Normalized("") == "";
  }

  lemma FirstBack(c: ColumnModel, d: ColumnModel)
    ensures var tag := TagOf(c);
            && OptionsParse(tag)
            && FillFirst(d, tag) == d.(
                 primaryKey := c.primaryKey, autoIncrement := c.autoIncrement, nullable := c.nullable,
                 selectDisabled := c.selectDisabled, idType := c.idType, fill := c.fill,
                 insertStrategy := c.insertStrategy, updateStrategy := c.updateStrategy,
                   whereStrategy := c.whereStrategy,
                 updateExpression := Text.TrimSpace(c.updateExpression))
  {
    FirstAttrs(c);
    hide AttrOf, TagOf, ParseIdType, ParseFill, ParseStrategy, TextIn, FlagIn, IsSet, StringAttr, Text.TrimSpace;
    SwitchBack(c);
    EnumBack(c);
    FlagBack(c, PrimaryKey, c.primaryKey);
    FlagBack(c, AutoIncrement, c.autoIncrement);
    TextBack(c, Update, c.updateExpression);
  }

  lemma FirstAttrs(c: ColumnModel)
    ensures AttrOf(c, PrimaryKey) == Flag(c.primaryKey) && AttrOf(c, AutoIncrement) == Flag(c.autoIncrement)
    ensures AttrOf(c, Update) == StringAttr(c.updateExpression) && AttrOf(c, Column) == StringAttr(c.columnName)
  {
    hide StringAttr, Flag;
  }

  lemma SecondAttrs(c: ColumnModel)
    ensures AttrOf(c, Size) == Number(c.size) && AttrOf(c, NumericScale) == Number(c.numericScale)
    ensures AttrOf(c, Type) == StringAttr(c.dbType) && AttrOf(c, Default) == StringAttr(c.defaultValue)
    ensures AttrOf(c, TypeHandler) == StringAttr(c.typeHandler) && AttrOf(c, KeyColumn) == StringAttr(c.keyColumn)
    ensures AttrOf(c, Condition) == StringAttr(c.condition)
  {
    hide StringAttr, Flag, Number;
  }

  lemma SecondFlags(c: ColumnModel)
    ensures AttrOf(c, OrderBy) == Flag(c.orderBy) && AttrOf(c, OrderDesc) == Flag(c.orderDesc)
    ensures AttrOf(c, Version) == Flag(c.version) && AttrOf(c, SoftDelete) == Flag(c.softDelete)
    ensures AttrOf(c, CreatedAt) == Flag(c.createdAt) && AttrOf(c, UpdatedAt) == Flag(c.updatedAt)
  {
    hide StringAttr, Flag, Number;
  }

  lemma SecondBack(c: ColumnModel, d: ColumnModel)
    ensures FillSecond(d, TagOf(c)) == d.(
              size := c.size, numericScale := c.numericScale, orderPriority := c.orderPriority,
              dbType := Text.TrimSpace(c.dbType), defaultValue := Text.TrimSpace(c.defaultValue),
              typeHandler := Text.TrimSpace(c.typeHandler), keyColumn := Text.TrimSpace(c.keyColumn),
              condition := Text.TrimSpace(c.condition), orderBy := c.orderBy, orderDesc := c.orderDesc,
              version := c.version, softDelete := c.softDelete, createdAt := c.createdAt, updatedAt := c.updatedAt)
  {
    SecondAttrs(c);
    SecondFlags(c);
    hide AttrOf, TagOf, TextIn, FlagIn, NumberIn, IsSet, StringAttr, Flag, Number, OrZero, Text.TrimSpace;
    SwitchBack(c);
    NumberBack(c, Size, c.size);
    NumberBack(c, NumericScale, c.numericScale);
    TextBack(c, Type, c.dbType);
    TextBack(c, Default, c.defaultValue);
    TextBack(c, TypeHandler, c.typeHandler);
    TextBack(c, KeyColumn, c.keyColumn);
    TextBack(c, Condition, c.condition);
    FlagBack(c, OrderBy, c.orderBy);
    FlagBack(c, OrderDesc, c.orderDesc);
    FlagBack(c, Version, c.version);
    FlagBack(c, SoftDelete, c.softDelete);
    FlagBack(c, CreatedAt, c.createdAt);
    FlagBack(c, UpdatedAt, c.updatedAt);
  }

  lemma TagMatches(c: ColumnModel)
    ensures AllMatch(TagOf(c))
  {
    hide AttrOf, KindOf, ValueKind;
    forall k | k in TagOf(c)
      ensures KindMatches(TagOf(c), k)
    {
      AttrKind(c, k);
    }
  }

  /** Building from the attributes of a column gives the column back, with its texts trimmed. */
  lemma BuildBack(c: ColumnModel, derived: string)
    requires !c.transient && Text.TrimSpace(c.columnName) != ""
    ensures Build(c.fieldName, c.fieldType, TagOf(c), derived) == Some(Trimmed(c))
  {
    FirstAttrs(c);
    hide AttrOf, TagOf, TextIn, IsSet, FillFirst, FillSecond, AllMatch, OptionsParse, StringAttr, Flag, Text.TrimSpace;
    SwitchBack(c);
    TagMatches(c);
    TextBack(c, Column, c.columnName);
    var d := NEW_COLUMN.(fieldName := c.fieldName, fieldType := c.fieldType,
                         columnName := Text.TrimSpace(c.columnName));
    FirstBack(c, d);
    SecondBack(c, FillFirst(d, TagOf(c)));
  }

  /**
   A column that is not transient and has a name is printed exactly when no text of it holds a quote, a semicolon, a
   line break, a carriage return or a tab, and reading the tag back builds the column again, with its texts trimmed.
   */
  lemma PrintParseBuild(c: ColumnModel, derived: string)
    requires !c.transient && Text.TrimSpace(c.columnName) != ""
    ensures PrintTag(c).Ok? <==> PrintableColumn(c)
    ensures PrintableColumn(c) ==>
      var tag := ParseTag(PrintTag(c).value);
      tag.Ok? && Build(c.fieldName, c.fieldType, tag.value, derived) == Some(Trimmed(c))
  {
    hide PrintTag, PrintableColumn, ParseTag, Build, TagOf, Text.TrimSpace;
    PrintsExactly(c);
    BuildBack(c, derived);
    if PrintTag(c).Ok? { ParsePrinted(c); }
  }
}
