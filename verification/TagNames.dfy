/**
 What each attribute of a struct tag means: the tag is written with the name of the attribute, and the column that is
 built from it differs from a bare one in that field only.
 */
module TagNames {
  import opened Numbers
  import opened Prelude
  import opened StructTags
  import Text

  /** A tag with the name of a column and one more attribute. */
  function Described(name: string, attribute: string): string {
    "column='" + name + "';" + attribute
  }

  /** The column that is built from the text of a tag, unless the tag is refused. */
  function Read(fieldName: string, fieldType: string, tag: string): Option<ColumnModel> {
    match ParseTag(tag) case Err(_) => None case Ok(t) => Build(fieldName, fieldType, t, "")
  }

  /** The column of a tag with a column name only. */
  function Bare(fieldName: string, fieldType: string, name: string): ColumnModel {
    NEW_COLUMN.(fieldName := fieldName, fieldType := fieldType, columnName := name)
  }

  predicate GoodName(name: string) {
    name != "" && Printable(name)
  }

  /** Two attributes are read as they are written. */
  lemma TwoParts(name: string, k: Key, v: TagValue)
    requires GoodName(name) && k != Column && PrintableValue(v) && ValueKind(v) == KindOf(k)
    ensures ParseTag(Described(name, Show(k, v))) == Ok(map[Column := Str(name), k := v])
  {
    hide Show, ParsePart, Printable, Solid, Text.TrimSpace, Split, ParseParts;
    var first, second := Show(Column, Str(name)), Show(k, v);
    ShowBack(Column, Str(name), map[]);
    ShowBack(k, v, map[Column := Str(name)]);
    PartsJoined(first, second);
    SplitJoin([first, second], ';');
    SolidJoin([first, second]);
    SolidTrim(first + ";" + second);
    DescribedIs(name, second);
    SolidNotEmpty(first + ";" + second);
    TwoParsed(first, second, map[Column := Str(name)], map[Column := Str(name)][k := v]);
  }

  lemma PartsJoined(first: string, second: string)
    ensures Text.Join([first, second], ";") == first + ";" + second
  {
    assert [first, second][1..] == [second];
  }

  lemma DescribedIs(name: string, second: string)
    ensures Show(Column, Str(name)) + ";" + second == Described(name, second)
  {
  }

  lemma TwoParsed(first: string, second: string, one: Tag, two: Tag)
    requires ParsePart(first, map[]) == Ok(one) && ParsePart(second, one) == Ok(two)
    ensures ParseParts([first, second], map[]) == Ok(two)
  {
    hide ParsePart;
    assert [first, second][1..] == [second] && [second][1..] == [];
    assert ParseParts([], two) == Ok(two);
    assert ParseParts([second], one) == Ok(two);
  }

  // ---- the column of two attributes ----

  function Two(name: string, k: Key, v: TagValue): Tag {
    map[Column := Str(name), k := v]
  }

  lemma TwoFlags(name: string, k: Key, v: TagValue, l: Key)
    requires k != Column && l != Column
    ensures FlagIn(Two(name, k, v), l) == if l == k && v.Boolean? then Some(v.b) else None
    ensures NumberIn(Two(name, k, v), l) == if l == k && v.Int? then Some(v.i) else None
    ensures TextIn(Two(name, k, v), l) == if l == k && v.Str? then v.s else ""
    ensures l in Two(name, k, v) <==> l == k
  {
  }

  lemma TwoMatch(name: string, k: Key, v: TagValue)
    requires ValueKind(v) == KindOf(k) && k != Column
    ensures AllMatch(Two(name, k, v)) && TextIn(Two(name, k, v), Column) == name
  {
    assert KindOf(Column) == StringKind;
    hide KindOf;
  }

  /** The options of a tag without options. */
  lemma NoOptions(name: string, k: Key, v: TagValue)
    requires k != Column && ValueKind(v) == KindOf(k)
    requires k !in {IdType, Fill, InsertStrategy, UpdateStrategy, WhereStrategy}
    ensures var tag := Two(name, k, v);
            && ParseIdType(TextIn(tag, IdType)) == Some(NoId) && ParseFill(TextIn(tag, Fill)) == Some(NoFill)
            && ParseStrategy(TextIn(tag, InsertStrategy)) == Some(DefaultStrategy)
            && ParseStrategy(TextIn(tag, UpdateStrategy)) == Some(DefaultStrategy)
            && ParseStrategy(TextIn(tag, WhereStrategy)) == Some(DefaultStrategy)
            && OptionsParse(tag)
  {
    hide ParseIdType, ParseFill, ParseStrategy, TextIn, KindOf;
    NothingParsed();
    TwoFlags(name, k, v, IdType);
    TwoFlags(name, k, v, Fill);
    TwoFlags(name, k, v, InsertStrategy);
    TwoFlags(name, k, v, UpdateStrategy);
    TwoFlags(name, k, v, WhereStrategy);
    TwoFlags(name, k, v, Update);
    TwoFlags(name, k, v, UpdateExpression);
  }

  lemma TagBuilt(f: string, t: string, name: string, tag: Tag)
    requires AllMatch(tag) && TextIn(tag, Column) == name != "" && !IsSet(tag, Transient)
    ensures Build(f, t, tag, "")
         == if OptionsParse(tag) then Some(FillSecond(FillFirst(Bare(f, t, name), tag), tag)) else None
  {
    hide OptionsParse, FillFirst, FillSecond, AllMatch, TextIn, FlagIn;
  }

  lemma TwoBuilt(f: string, t: string, name: string, k: Key, v: TagValue)
    requires GoodName(name) && k != Column && ValueKind(v) == KindOf(k)
    requires k !in {IdType, Fill, InsertStrategy, UpdateStrategy, WhereStrategy, Transient}
    ensures OptionsParse(Two(name, k, v))
    ensures Build(f, t, Two(name, k, v), "")
         == Some(FillSecond(FillFirst(Bare(f, t, name), Two(name, k, v)), Two(name, k, v)))
  {
    hide OptionsParse, FillFirst, FillSecond, AllMatch, TextIn, FlagIn, KindOf, Build, Two, Bare;
    NoOptions(name, k, v);
    TwoMatch(name, k, v);
    TwoFlags(name, k, v, Transient);
    TagBuilt(f, t, name, Two(name, k, v));
  }

  /** A column whose flags are those of one attribute. */
  function WithFlag(c: ColumnModel, k: Key, b: bool): ColumnModel {
    c.(primaryKey := k == PrimaryKey && b, autoIncrement := k == AutoIncrement && b,
       nullable := if k == Nullable then Some(b) else None, selectDisabled := k == Select && !b,
       orderBy := k == OrderBy && b, orderDesc := k == OrderDesc && b, version := k == Version && b,
       softDelete := k == SoftDelete && b, createdAt := k == CreatedAt && b, updatedAt := k == UpdatedAt && b)
  }

  function WithNumber(c: ColumnModel, k: Key, i: GoInt): ColumnModel {
    c.(size := if k == Size then Some(i) else None, numericScale := if k == NumericScale then Some(i) else None,
       orderPriority := if k == OrderPriority then i else 0)
  }

  function WithText(c: ColumnModel, k: Key, s: string): ColumnModel {
    c.(dbType := if k == Type then s else "", defaultValue := if k == Default then s else "",
       typeHandler := if k == TypeHandler then s else "", keyColumn := if k == KeyColumn then s else "",
       condition := if k == Condition then s else "",
       updateExpression := if k == Update || k == UpdateExpression then s else "")
  }

  /** The fields of a bare column that attributes set. */
  predicate BareFields(c: ColumnModel) {
    && !c.version && !c.softDelete && !c.createdAt && !c.updatedAt && !c.primaryKey && !c.autoIncrement
    && !c.orderBy && !c.orderDesc && !c.selectDisabled && c.nullable == None
    && c.size == None && c.numericScale == None && c.orderPriority == 0
    && c.dbType == "" && c.defaultValue == "" && c.typeHandler == "" && c.keyColumn == "" && c.condition == ""
    && c.updateExpression == ""
    && c.idType == NoId && c.fill == NoFill && c.insertStrategy == DefaultStrategy
    && c.updateStrategy == DefaultStrategy && c.whereStrategy == DefaultStrategy
  }

  lemma BareIs(f: string, t: string, name: string)
    ensures BareFields(Bare(f, t, name))
  {
  }

  /** The options of a tag are not set. */
  predicate Optionless(tag: Tag) {
    && ParseIdType(TextIn(tag, IdType)) == Some(NoId) && ParseFill(TextIn(tag, Fill)) == Some(NoFill)
    && ParseStrategy(TextIn(tag, InsertStrategy)) == Some(DefaultStrategy)
    && ParseStrategy(TextIn(tag, UpdateStrategy)) == Some(DefaultStrategy)
    && ParseStrategy(TextIn(tag, WhereStrategy)) == Some(DefaultStrategy)
    && OptionsParse(tag)
  }

  lemma FirstIs(c: ColumnModel, tag: Tag, primary: bool, auto: bool, nullable: Option<bool>, select: Option<bool>,
                update: string)
    requires BareFields(c) && Optionless(tag)
    requires IsSet(tag, PrimaryKey) == primary && IsSet(tag, AutoIncrement) == auto
    requires FlagIn(tag, Nullable) == nullable && FlagIn(tag, Select) == select
    requires update == if UpdateExpression in tag then TextIn(tag, UpdateExpression) else TextIn(tag, Update)
    ensures FillFirst(c, tag) == c.(primaryKey := primary, autoIncrement := auto, nullable := nullable,
                                    selectDisabled := select == Some(false), updateExpression := update)
  {
    hide FlagIn, IsSet, TextIn, ParseIdType, ParseFill, ParseStrategy, OptionsParse;
  }

  lemma TextsIn(name: string, k: Key, v: TagValue)
    requires k != Column
    ensures var tag := Two(name, k, v); var s := if v.Str? then v.s else "";
            && TextIn(tag, Type) == (if k == Type then s else "")
            && TextIn(tag, Default) == (if k == Default then s else "")
            && TextIn(tag, TypeHandler) == (if k == TypeHandler then s else "")
            && TextIn(tag, KeyColumn) == (if k == KeyColumn then s else "")
            && TextIn(tag, Condition) == (if k == Condition then s else "")
            && TextIn(tag, if UpdateExpression in tag then UpdateExpression else Update)
               == (if k == Update || k == UpdateExpression then s else "")
  {
    hide TextIn, FlagIn, NumberIn, Two;
    TwoFlags(name, k, v, Type);
    TwoFlags(name, k, v, Default);
    TwoFlags(name, k, v, TypeHandler);
    TwoFlags(name, k, v, KeyColumn);
    TwoFlags(name, k, v, Condition);
    TwoFlags(name, k, v, Update);
    TwoFlags(name, k, v, UpdateExpression);
  }

  lemma FirstFlagsIn(name: string, k: Key, v: TagValue)
    requires k != Column
    ensures var tag := Two(name, k, v); var b := v.Boolean? && v.b;
            && IsSet(tag, PrimaryKey) == (k == PrimaryKey && b)
            && IsSet(tag, AutoIncrement) == (k == AutoIncrement && b)
            && FlagIn(tag, Nullable) == (if k == Nullable && v.Boolean? then Some(b) else None)
            && FlagIn(tag, Select) == (if k == Select && v.Boolean? then Some(b) else None)
  {
    hide TextIn, FlagIn, NumberIn, Two;
    TwoFlags(name, k, v, PrimaryKey);
    TwoFlags(name, k, v, AutoIncrement);
    TwoFlags(name, k, v, Nullable);
    TwoFlags(name, k, v, Select);
  }

  lemma LastFlagsIn(name: string, k: Key, v: TagValue)
    requires k != Column
    ensures var tag := Two(name, k, v); var b := v.Boolean? && v.b;
            && IsSet(tag, OrderBy) == (k == OrderBy && b) && IsSet(tag, OrderDesc) == (k == OrderDesc && b)
            && IsSet(tag, Version) == (k == Version && b) && IsSet(tag, SoftDelete) == (k == SoftDelete && b)
            && IsSet(tag, CreatedAt) == (k == CreatedAt && b) && IsSet(tag, UpdatedAt) == (k == UpdatedAt && b)
  {
    hide TextIn, FlagIn, NumberIn, Two;
    TwoFlags(name, k, v, OrderBy);
    TwoFlags(name, k, v, OrderDesc);
    TwoFlags(name, k, v, Version);
    TwoFlags(name, k, v, SoftDelete);
    TwoFlags(name, k, v, CreatedAt);
    TwoFlags(name, k, v, UpdatedAt);
  }

  lemma NumbersIn(name: string, k: Key, v: TagValue)
    requires k != Column
    ensures var tag := Two(name, k, v);
            && NumberIn(tag, Size) == (if k == Size && v.Int? then Some(v.i) else None)
            && NumberIn(tag, NumericScale) == (if k == NumericScale && v.Int? then Some(v.i) else None)
            && NumberIn(tag, OrderPriority) == (if k == OrderPriority && v.Int? then Some(v.i) else None)
  {
    hide TextIn, FlagIn, NumberIn, Two;
    TwoFlags(name, k, v, Size);
    TwoFlags(name, k, v, NumericScale);
    TwoFlags(name, k, v, OrderPriority);
  }

  lemma SecondIs(c: ColumnModel, tag: Tag, n: ColumnModel)
    requires n.size == NumberIn(tag, Size) && n.numericScale == NumberIn(tag, NumericScale)
    requires n.orderPriority == OrZero(NumberIn(tag, OrderPriority))
    requires n.dbType == TextIn(tag, Type) && n.defaultValue == TextIn(tag, Default)
    requires n.typeHandler == TextIn(tag, TypeHandler) && n.keyColumn == TextIn(tag, KeyColumn)
    requires n.condition == TextIn(tag, Condition) && n.orderBy == IsSet(tag, OrderBy)
    requires n.orderDesc == IsSet(tag, OrderDesc) && n.version == IsSet(tag, Version)
    requires n.softDelete == IsSet(tag, SoftDelete) && n.createdAt == IsSet(tag, CreatedAt)
    requires n.updatedAt == IsSet(tag, UpdatedAt)
    ensures FillSecond(c, tag) == c.(
              size := n.size, numericScale := n.numericScale, orderPriority := n.orderPriority, dbType := n.dbType,
              defaultValue := n.defaultValue, typeHandler := n.typeHandler, keyColumn := n.keyColumn,
              condition := n.condition, orderBy := n.orderBy, orderDesc := n.orderDesc, version := n.version,
              softDelete := n.softDelete, createdAt := n.createdAt, updatedAt := n.updatedAt)
  {
    hide TextIn, NumberIn, IsSet, OrZero;
  }

  /** The column of one attribute. */
  function WithOne(c: ColumnModel, k: Key, v: TagValue): ColumnModel {
    match v
    case Boolean(b) => WithFlag(c, k, b)
    case Int(i) => WithNumber(c, k, i)
    case Str(s) => WithText(c, k, s)
  }

  /** What the first options make of a switch. */
  function FirstFlag(c: ColumnModel, k: Key, b: bool): ColumnModel {
    c.(primaryKey := k == PrimaryKey && b, autoIncrement := k == AutoIncrement && b,
       nullable := if k == Nullable then Some(b) else None, selectDisabled := k == Select && !b,
       updateExpression := "")
  }

  lemma FlagFilled(c: ColumnModel, name: string, k: Key, b: bool)
    requires k != Column && BareFields(c) && Optionless(Two(name, k, Boolean(b)))
    ensures var tag := Two(name, k, Boolean(b)); FillSecond(FillFirst(c, tag), tag) == WithFlag(c, k, b)
  {
    hide *;
    FlagFirst(c, name, k, b);
    FlagSecond(c, name, k, b);
  }

  lemma FlagFirst(c: ColumnModel, name: string, k: Key, b: bool)
    requires k != Column && BareFields(c) && Optionless(Two(name, k, Boolean(b)))
    ensures FillFirst(c, Two(name, k, Boolean(b))) == FirstFlag(c, k, b)
  {
    hide TextIn, FlagIn, NumberIn, IsSet, Two, FillFirst, FillSecond, OptionsParse, ParseIdType, ParseStrategy,
         ParseFill;
    var v := Boolean(b);
    FirstFlagsIn(name, k, v);
    TextsIn(name, k, v);
    FirstIs(c, Two(name, k, v), k == PrimaryKey && b, k == AutoIncrement && b, if k == Nullable then Some(b) else None,
            if k == Select then Some(b) else None, "");
  }

  lemma FlagSecond(c: ColumnModel, name: string, k: Key, b: bool)
    requires k != Column && BareFields(c)
    ensures FillSecond(FirstFlag(c, k, b), Two(name, k, Boolean(b))) == WithFlag(c, k, b)
  {
    hide TextIn, FlagIn, NumberIn, IsSet, Two, FillFirst, FillSecond, OptionsParse, ParseIdType, ParseStrategy,
         ParseFill;
    var v := Boolean(b);
    LastFlagsIn(name, k, v);
    TextsIn(name, k, v);
    NumbersIn(name, k, v);
    FlagFields(c, k, b);
    hide WithFlag, BareFields;
    SecondIs(FirstFlag(c, k, b), Two(name, k, v), WithFlag(c, k, b));
  }

  lemma FlagFields(c: ColumnModel, k: Key, b: bool)
    requires BareFields(c)
    ensures var n := WithFlag(c, k, b);
            && n.size == None && n.numericScale == None && n.orderPriority == 0
            && n.dbType == "" && n.defaultValue == "" && n.typeHandler == "" && n.keyColumn == "" && n.condition == ""
            && n.orderBy == (k == OrderBy && b) && n.orderDesc == (k == OrderDesc && b)
            && n.version == (k == Version && b) && n.softDelete == (k == SoftDelete && b)
            && n.createdAt == (k == CreatedAt && b) && n.updatedAt == (k == UpdatedAt && b)
    ensures var d := c.(primaryKey := k == PrimaryKey && b, autoIncrement := k == AutoIncrement && b,
                        nullable := if k == Nullable then Some(b) else None, selectDisabled := k == Select && !b,
                        updateExpression := "");
            var n := WithFlag(c, k, b);
            d.(size := n.size, numericScale := n.numericScale, orderPriority := n.orderPriority, dbType := n.dbType,
               defaultValue := n.defaultValue, typeHandler := n.typeHandler, keyColumn := n.keyColumn,
               condition := n.condition, orderBy := n.orderBy, orderDesc := n.orderDesc, version := n.version,
               softDelete := n.softDelete, createdAt := n.createdAt, updatedAt := n.updatedAt) == n
  {
  }

  lemma NumberFilled(c: ColumnModel, name: string, k: Key, i: GoInt)
    requires k != Column && BareFields(c) && Optionless(Two(name, k, Int(i)))
    ensures var tag := Two(name, k, Int(i)); FillSecond(FillFirst(c, tag), tag) == WithNumber(c, k, i)
  {
    hide TextIn, FlagIn, NumberIn, IsSet, Two, FillFirst, FillSecond, OptionsParse, ParseIdType, ParseStrategy,
         ParseFill;
    var v := Int(i);
    var tag := Two(name, k, v);
    FirstFlagsIn(name, k, v);
    LastFlagsIn(name, k, v);
    TextsIn(name, k, v);
    NumbersIn(name, k, v);
    FirstIs(c, tag, false, false, None, None, "");
    SecondIs(FillFirst(c, tag), tag, WithNumber(c, k, i));
  }

  lemma TextFilled(c: ColumnModel, name: string, k: Key, s: string)
    requires k != Column && BareFields(c) && Optionless(Two(name, k, Str(s)))
    ensures var tag := Two(name, k, Str(s)); FillSecond(FillFirst(c, tag), tag) == WithText(c, k, s)
  {
    hide TextIn, FlagIn, NumberIn, IsSet, Two, FillFirst, FillSecond, OptionsParse, ParseIdType, ParseStrategy,
         ParseFill;
    var v := Str(s);
    var tag := Two(name, k, v);
    FirstFlagsIn(name, k, v);
    LastFlagsIn(name, k, v);
    TextsIn(name, k, v);
    NumbersIn(name, k, v);
    FirstIs(c, tag, false, false, None, None, if k == Update || k == UpdateExpression then s else "");
    SecondIs(FillFirst(c, tag), tag, WithText(c, k, s));
  }

  lemma Filled(f: string, t: string, name: string, k: Key, v: TagValue)
    requires GoodName(name) && k != Column && ValueKind(v) == KindOf(k)
    requires k !in {IdType, Fill, InsertStrategy, UpdateStrategy, WhereStrategy, Transient}
    ensures Build(f, t, Two(name, k, v), "") == Some(WithOne(Bare(f, t, name), k, v))
  {
    hide OptionsParse, TextIn, ParseIdType, ParseFill, ParseStrategy, Build, Bare, Two, FillFirst, FillSecond, KindOf,
         WithFlag, WithNumber, WithText, BareFields;
    TwoBuilt(f, t, name, k, v);
    NoOptions(name, k, v);
    BareIs(f, t, name);
    match v {
      case Boolean(b) => FlagFilled(Bare(f, t, name), name, k, b);
      case Int(i) => NumberFilled(Bare(f, t, name), name, k, i);
      case Str(s) => TextFilled(Bare(f, t, name), name, k, s);
    }
  }

  // ---- what the names mean ----

  lemma ReadIs(f: string, t: string, name: string, k: Key, v: TagValue)
    requires GoodName(name) && k != Column && PrintableValue(v) && ValueKind(v) == KindOf(k)
    ensures Read(f, t, Described(name, Show(k, v))) == Build(f, t, Two(name, k, v), "")
  {
    hide ParseTag, Build, Show, KindOf;
    TwoParts(name, k, v);
  }

  /** The marks of a column. */
  lemma MarksMean(f: string, t: string, name: string)
    requires GoodName(name)
    ensures var c := Bare(f, t, name);
            && Read(f, t, Described(name, "version=true")) == Some(c.(version := true))
            && Read(f, t, Described(name, "soft-delete=true")) == Some(c.(softDelete := true))
            && Read(f, t, Described(name, "created-at=true")) == Some(c.(createdAt := true))
            && Read(f, t, Described(name, "updated-at=true")) == Some(c.(updatedAt := true))
            && Read(f, t, Described(name, "primary-key=true")) == Some(c.(primaryKey := true))
            && Read(f, t, Described(name, "auto-increment=true")) == Some(c.(autoIncrement := true))
            && Read(f, t, Described(name, "order-by=true")) == Some(c.(orderBy := true))
            && Read(f, t, Described(name, "order-desc=true")) == Some(c.(orderDesc := true))
            && Read(f, t, Described(name, "select=false")) == Some(c.(selectDisabled := true))
            && Read(f, t, Described(name, "nullable=true")) == Some(c.(nullable := Some(true)))
            && Read(f, t, Described(name, "nullable=false")) == Some(c.(nullable := Some(false)))
  {
    hide Read, Bare, Described, WithFlag, Show, KindOf, BareFields;
    var c := Bare(f, t, name);
    BareIs(f, t, name);
    TimeMarks(c);
    ChangeMarks(c);
    KeyMarks(c);
    OrderMarks(c);
    SwitchMarks(c, true);
    SwitchMarks(c, false);
    TimesShown();
    KeysShown();
    SwitchesShown();
    FlagMeans(f, t, name, Version, "version=true", true);
    FlagMeans(f, t, name, SoftDelete, "soft-delete=true", true);
    FlagMeans(f, t, name, CreatedAt, "created-at=true", true);
    FlagMeans(f, t, name, UpdatedAt, "updated-at=true", true);
    FlagMeans(f, t, name, PrimaryKey, "primary-key=true", true);
    FlagMeans(f, t, name, AutoIncrement, "auto-increment=true", true);
    FlagMeans(f, t, name, OrderBy, "order-by=true", true);
    FlagMeans(f, t, name, OrderDesc, "order-desc=true", true);
    FlagMeans(f, t, name, Select, "select=false", false);
    FlagMeans(f, t, name, Nullable, "nullable=true", true);
    FlagMeans(f, t, name, Nullable, "nullable=false", false);
  }

  lemma TimeMarks(c: ColumnModel)
    requires BareFields(c)
    ensures WithFlag(c, Version, true) == c.(version := true)
    ensures WithFlag(c, SoftDelete, true) == c.(softDelete := true)
  {
  }

  lemma ChangeMarks(c: ColumnModel)
    requires BareFields(c)
    ensures WithFlag(c, CreatedAt, true) == c.(createdAt := true)
    ensures WithFlag(c, UpdatedAt, true) == c.(updatedAt := true)
  {
  }

  lemma KeyMarks(c: ColumnModel)
    requires BareFields(c)
    ensures WithFlag(c, PrimaryKey, true) == c.(primaryKey := true)
    ensures WithFlag(c, AutoIncrement, true) == c.(autoIncrement := true)
  {
  }

  lemma OrderMarks(c: ColumnModel)
    requires BareFields(c)
    ensures WithFlag(c, OrderBy, true) == c.(orderBy := true)
    ensures WithFlag(c, OrderDesc, true) == c.(orderDesc := true)
  {
  }

  lemma SwitchMarks(c: ColumnModel, b: bool)
    requires BareFields(c)
    ensures WithFlag(c, Select, false) == c.(selectDisabled := true)
    ensures WithFlag(c, Nullable, b) == c.(nullable := Some(b))
  {
  }

  lemma TimesShown()
    ensures Show(Version, Boolean(true)) == "version=true" && KindOf(Version) == BoolKind
    ensures Show(SoftDelete, Boolean(true)) == "soft-delete=true" && KindOf(SoftDelete) == BoolKind
    ensures Show(CreatedAt, Boolean(true)) == "created-at=true" && KindOf(CreatedAt) == BoolKind
    ensures Show(UpdatedAt, Boolean(true)) == "updated-at=true" && KindOf(UpdatedAt) == BoolKind
  {
  }

  lemma KeysShown()
    ensures Show(PrimaryKey, Boolean(true)) == "primary-key=true" && KindOf(PrimaryKey) == BoolKind
    ensures Show(AutoIncrement, Boolean(true)) == "auto-increment=true" && KindOf(AutoIncrement) == BoolKind
    ensures Show(OrderBy, Boolean(true)) == "order-by=true" && KindOf(OrderBy) == BoolKind
    ensures Show(OrderDesc, Boolean(true)) == "order-desc=true" && KindOf(OrderDesc) == BoolKind
  {
  }

  lemma SwitchesShown()
    ensures Show(Select, Boolean(false)) == "select=false" && KindOf(Select) == BoolKind
    ensures Show(Nullable, Boolean(true)) == "nullable=true" && KindOf(Nullable) == BoolKind
    ensures Show(Nullable, Boolean(false)) == "nullable=false" && KindOf(Nullable) == BoolKind
  {
  }

  lemma FlagMeans(f: string, t: string, name: string, k: Key, attribute: string, b: bool)
    requires GoodName(name) && KindOf(k) == BoolKind && k != Transient && attribute == Show(k, Boolean(b))
    ensures Read(f, t, Described(name, attribute)) == Some(WithFlag(Bare(f, t, name), k, b))
  {
    assert k != Column && ValueKind(Boolean(b)) == KindOf(k);
    assert k !in {IdType, Fill, InsertStrategy, UpdateStrategy, WhereStrategy, Transient};
    hide Read, Build, Show, Bare, Two, WithFlag, KindOf;
    ReadIs(f, t, name, k, Boolean(b));
    Filled(f, t, name, k, Boolean(b));
  }

  /** The numbers of a column. */
  lemma NumbersMean(f: string, t: string, name: string, i: GoInt)
    requires GoodName(name)
    ensures var c := Bare(f, t, name);
            && Read(f, t, Described(name, "size=" + Itoa(i))) == Some(c.(size := Some(i)))
            && Read(f, t, Described(name, "numeric-scale=" + Itoa(i))) == Some(c.(numericScale := Some(i)))
            && Read(f, t, Described(name, "order-priority=" + Itoa(i))) == Some(c.(orderPriority := i))
  {
    hide Read, Bare, Described, Build, Two, Itoa;
    NumberShown(Size, "size=", i);
    NumberShown(NumericScale, "numeric-scale=", i);
    NumberShown(OrderPriority, "order-priority=", i);
    ReadIs(f, t, name, Size, Int(i));
    Filled(f, t, name, Size, Int(i));
    ReadIs(f, t, name, NumericScale, Int(i));
    Filled(f, t, name, NumericScale, Int(i));
    ReadIs(f, t, name, OrderPriority, Int(i));
    Filled(f, t, name, OrderPriority, Int(i));
    BareIs(f, t, name);
  }

  lemma NumberShown(k: Key, lead: string, i: GoInt)
    requires lead == Name(k) + "="
    ensures Show(k, Int(i)) == lead + Itoa(i)
  {
  }

  /** The texts of a column. */
  lemma TextsMean(f: string, t: string, name: string, s: string)
    requires GoodName(name) && Printable(s)
    ensures var c := Bare(f, t, name);
            && Read(f, t, Described(name, "type='" + s + "'")) == Some(c.(dbType := s))
            && Read(f, t, Described(name, "default='" + s + "'")) == Some(c.(defaultValue := s))
            && Read(f, t, Described(name, "type-handler='" + s + "'")) == Some(c.(typeHandler := s))
            && Read(f, t, Described(name, "key-column='" + s + "'")) == Some(c.(keyColumn := s))
            && Read(f, t, Described(name, "condition='" + s + "'")) == Some(c.(condition := s))
            && Read(f, t, Described(name, "update='" + s + "'")) == Some(c.(updateExpression := s))
            && Read(f, t, Described(name, "update-expression='" + s + "'")) == Some(c.(updateExpression := s))
  {
    hide Read, Bare, Described, Printable;
    TextMeans(f, t, name, Type, "type='", s);
    TextMeans(f, t, name, Default, "default='", s);
    TextMeans(f, t, name, TypeHandler, "type-handler='", s);
    TextMeans(f, t, name, KeyColumn, "key-column='", s);
    TextMeans(f, t, name, Condition, "condition='", s);
    TextMeans(f, t, name, Update, "update='", s);
    TextMeans(f, t, name, UpdateExpression, "update-expression='", s);
    BareIs(f, t, name);
  }

  lemma TextShown(k: Key, lead: string, s: string)
    requires lead == Name(k) + "='"
    ensures Show(k, Str(s)) == lead + s + "'"
  {
    hide Name;
    assert Name(k) + "=" + ("'" + s + "'") == Name(k) + "='" + s + "'";
  }

  lemma TextMeans(f: string, t: string, name: string, k: Key, lead: string, s: string)
    requires GoodName(name) && Printable(s) && KindOf(k) == StringKind && k != Column && lead == Name(k) + "='"
    requires k !in {IdType, Fill, InsertStrategy, UpdateStrategy, WhereStrategy}
    ensures Read(f, t, Described(name, lead + s + "'"))
         == Some(WithText(Bare(f, t, name), k, s))
  {
    assert k != Transient && ValueKind(Str(s)) == KindOf(k);
    hide Read, Build, Bare, Described, Two, Name, Printable, KindOf, WithText, Show;
    TextShown(k, lead, s);
    ReadIs(f, t, name, k, Str(s));
    Filled(f, t, name, k, Str(s));
  }

  // ---- options ----

  /** The option that a key sets, out of a text. */
  function WithOption(c: ColumnModel, k: Key, s: string): Option<ColumnModel> {
    match k
    case IdType => (match ParseIdType(s) case None => None case Some(o) => Some(c.(idType := o)))
    case Fill => (match ParseFill(s) case None => None case Some(o) => Some(c.(fill := o)))
    case InsertStrategy => (match ParseStrategy(s) case None => None case Some(o) => Some(c.(insertStrategy := o)))
    case UpdateStrategy => (match ParseStrategy(s) case None => None case Some(o) => Some(c.(updateStrategy := o)))
    case WhereStrategy => (match ParseStrategy(s) case None => None case Some(o) => Some(c.(whereStrategy := o)))
    case _ => None
  }

  lemma OptionsIn(name: string, k: Key, s: string)
    requires k in {IdType, Fill, InsertStrategy, UpdateStrategy, WhereStrategy}
    ensures var tag := Two(name, k, Str(s));
            && TextIn(tag, IdType) == (if k == IdType then s else "")
            && TextIn(tag, Fill) == (if k == Fill then s else "")
            && TextIn(tag, InsertStrategy) == (if k == InsertStrategy then s else "")
            && TextIn(tag, UpdateStrategy) == (if k == UpdateStrategy then s else "")
            && TextIn(tag, WhereStrategy) == (if k == WhereStrategy then s else "")
            && TextIn(tag, Update) == "" && UpdateExpression !in tag
  {
    hide TextIn, FlagIn, NumberIn, Two;
    var v := Str(s);
    TwoFlags(name, k, v, IdType);
    TwoFlags(name, k, v, Fill);
    TwoFlags(name, k, v, InsertStrategy);
    TwoFlags(name, k, v, UpdateStrategy);
    TwoFlags(name, k, v, WhereStrategy);
    TwoFlags(name, k, v, Update);
    TwoFlags(name, k, v, UpdateExpression);
  }

  lemma OptionParsed(name: string, k: Key, s: string, c: ColumnModel)
    requires k in {IdType, Fill, InsertStrategy, UpdateStrategy, WhereStrategy}
    ensures OptionsParse(Two(name, k, Str(s))) <==> WithOption(c, k, s).Some?
  {
    hide TextIn, Two, ParseIdType, ParseFill, ParseStrategy;
    NothingParsed();
    OptionsIn(name, k, s);
  }

  lemma OptionFirst(c: ColumnModel, name: string, k: Key, s: string)
    requires k in {IdType, Fill, InsertStrategy, UpdateStrategy, WhereStrategy} && BareFields(c)
    requires OptionsParse(Two(name, k, Str(s)))
    ensures Some(FillFirst(c, Two(name, k, Str(s)))) == WithOption(c, k, s)
  {
    hide TextIn, FlagIn, IsSet, Two, ParseIdType, ParseFill, ParseStrategy;
    NothingParsed();
    OptionsIn(name, k, s);
    FirstFlagsIn(name, k, Str(s));
  }

  lemma SecondBare(c: ColumnModel, name: string, k: Key, s: string)
    requires k in {IdType, Fill, InsertStrategy, UpdateStrategy, WhereStrategy}
    requires exists d :: BareFields(d) && SameRest(c, d)
    ensures FillSecond(c, Two(name, k, Str(s))) == c
  {
    hide TextIn, NumberIn, IsSet, Two;
    LastFlagsIn(name, k, Str(s));
    TextsIn(name, k, Str(s));
    NumbersIn(name, k, Str(s));
  }

  /** The fields set after the options are the same. */
  predicate SameRest(c: ColumnModel, d: ColumnModel) {
    && c.size == d.size && c.numericScale == d.numericScale && c.orderPriority == d.orderPriority
    && c.dbType == d.dbType && c.defaultValue == d.defaultValue && c.typeHandler == d.typeHandler
    && c.keyColumn == d.keyColumn && c.condition == d.condition && c.orderBy == d.orderBy
    && c.orderDesc == d.orderDesc && c.version == d.version && c.softDelete == d.softDelete
    && c.createdAt == d.createdAt && c.updatedAt == d.updatedAt
  }

  lemma OptionSame(c: ColumnModel, k: Key, s: string)
    requires WithOption(c, k, s).Some?
    ensures SameRest(WithOption(c, k, s).value, c)
  {
    hide ParseIdType, ParseFill, ParseStrategy;
  }

  lemma OptionMeans(f: string, t: string, name: string, k: Key, lead: string, s: string)
    requires GoodName(name) && Printable(s) && lead == Name(k) + "='"
    requires k in {IdType, Fill, InsertStrategy, UpdateStrategy, WhereStrategy}
    ensures Read(f, t, Described(name, lead + s + "'")) == WithOption(Bare(f, t, name), k, s)
  {
    assert k != Column && k != Transient && ValueKind(Str(s)) == KindOf(k);
    hide Read, Bare, Described, Two, Name, Printable, KindOf, WithOption, Show, OptionsParse, FillFirst, FillSecond,
         AllMatch, FlagIn, TextIn, SameRest, BareFields;
    var c, tag := Bare(f, t, name), Two(name, k, Str(s));
    TextShown(k, lead, s);
    ReadIs(f, t, name, k, Str(s));
    TwoMatch(name, k, Str(s));
    TwoFlags(name, k, Str(s), Transient);
    BareIs(f, t, name);
    OptionParsed(name, k, s, c);
    TagBuilt(f, t, name, tag);
    if OptionsParse(tag) {
      OptionFirst(c, name, k, s);
      OptionSame(c, k, s);
      SecondBare(FillFirst(c, tag), name, k, s);
    }
  }

  /** The options of a column: the text of each is read into its own field, or the tag is refused. */
  lemma OptionsMean(f: string, t: string, name: string, s: string)
    requires GoodName(name) && Printable(s)
    ensures var c := Bare(f, t, name);
            && Read(f, t, Described(name, "id-type='" + s + "'"))
               == (match ParseIdType(s) case None => None case Some(o) => Some(c.(idType := o)))
            && Read(f, t, Described(name, "fill='" + s + "'"))
               == (match ParseFill(s) case None => None case Some(o) => Some(c.(fill := o)))
    ensures var c := Bare(f, t, name);
            && Read(f, t, Described(name, "insert-strategy='" + s + "'"))
               == (match ParseStrategy(s) case None => None case Some(o) => Some(c.(insertStrategy := o)))
            && Read(f, t, Described(name, "update-strategy='" + s + "'"))
               == (match ParseStrategy(s) case None => None case Some(o) => Some(c.(updateStrategy := o)))
            && Read(f, t, Described(name, "where-strategy='" + s + "'"))
               == (match ParseStrategy(s) case None => None case Some(o) => Some(c.(whereStrategy := o)))
  {
    hide Read, Bare, Described, Printable, ParseIdType, ParseFill, ParseStrategy;
    OptionMeans(f, t, name, IdType, "id-type='", s);
    OptionMeans(f, t, name, Fill, "fill='", s);
    OptionMeans(f, t, name, InsertStrategy, "insert-strategy='", s);
    OptionMeans(f, t, name, UpdateStrategy, "update-strategy='", s);
    OptionMeans(f, t, name, WhereStrategy, "where-strategy='", s);
  }

  // ---- what is printed for an option ----

  function StrategyWord(t: Strategy): string {
    match t
    case DefaultStrategy => "" case Always => "always" case NotNull => "not-null" case NotEmpty => "not-empty"
    case NotZero => "not-zero" case Never => "never"
  }

  function FillWord(t: FillKind): string {
    match t
    case NoFill => "" case InsertFill => "insert" case UpdateFill => "update" case InsertUpdateFill => "insert_update"
  }

  lemma StrategyPrinted(t: Strategy)
    ensures ReverseStrategy(t) == StrategyWord(t)
  {
  }

  lemma FillPrinted(t: FillKind)
    ensures ReverseFill(t) == FillWord(t)
  {
  }

  predicate TightWord(s: string) {
    s == "" || (!Text.IsSpace(s[0]) && !Text.IsSpace(s[|s| - 1]))
  }

  lemma WordPrinted(s: string)
    requires TightWord(s)
    ensures StringAttr(s) == if s == "" then None else Some(Str(s))
  {
    hide Text.TrimSpace;
    if s == "" { EmptyTrimmed(); } else { Text.TrimTight(s); }
  }

  lemma EmptyTrimmed()
    ensures Text.TrimSpace("") == ""
  {
  }

  lemma StrategyTight(t: Strategy)
    ensures TightWord(StrategyWord(t))
  {
  }

  lemma FillTight(t: FillKind)
    ensures TightWord(FillWord(t))
  {
  }

  lemma StrategyShown(t: Strategy)
    ensures StringAttr(ReverseStrategy(t)) == if StrategyWord(t) == "" then None else Some(Str(StrategyWord(t)))
  {
    hide StringAttr, ReverseStrategy, StrategyWord, TightWord;
    StrategyPrinted(t);
    StrategyTight(t);
    WordPrinted(StrategyWord(t));
  }

  lemma FillShown(t: FillKind)
    ensures StringAttr(ReverseFill(t)) == if FillWord(t) == "" then None else Some(Str(FillWord(t)))
  {
    hide StringAttr, ReverseFill, FillWord, TightWord;
    FillPrinted(t);
    FillTight(t);
    WordPrinted(FillWord(t));
  }

  /** Strategies and fills are printed as words in small letters, those of strategies with hyphens; defaults are not. */
  lemma OptionsPrinted(c: ColumnModel)
    ensures var word := StrategyWord(c.insertStrategy);
            AttrOf(c, InsertStrategy) == if word == "" then None else Some(Str(word))
    ensures var word := StrategyWord(c.updateStrategy);
            AttrOf(c, UpdateStrategy) == if word == "" then None else Some(Str(word))
    ensures var word := StrategyWord(c.whereStrategy);
            AttrOf(c, WhereStrategy) == if word == "" then None else Some(Str(word))
    ensures var word := FillWord(c.fill); AttrOf(c, Fill) == if word == "" then None else Some(Str(word))
  {
    hide StringAttr, ReverseStrategy, ReverseFill, StrategyWord, FillWord;
    StrategyShown(c.insertStrategy);
    StrategyShown(c.updateStrategy);
    StrategyShown(c.whereStrategy);
    FillShown(c.fill);
  }

  // ---- what is read for an option ----

  /** The values of the options, as they are, in small letters, and in small letters with hyphens. */
  lemma OptionValues(s: string)
    ensures Spelling(s, "AUTO") ==> ParseIdType(s) == Some(AutoId)
    ensures Spelling(s, "INPUT") ==> ParseIdType(s) == Some(InputId)
    ensures Spelling(s, "ASSIGN_ID") ==> ParseIdType(s) == Some(AssignId)
    ensures Spelling(s, "ASSIGN_UUID") ==> ParseIdType(s) == Some(AssignUuid)
    ensures Spelling(s, "INSERT") ==> ParseFill(s) == Some(InsertFill)
    ensures Spelling(s, "UPDATE") ==> ParseFill(s) == Some(UpdateFill)
    ensures Spelling(s, "INSERT_UPDATE") ==> ParseFill(s) == Some(InsertUpdateFill)
    ensures Spelling(s, "ALWAYS") ==> ParseStrategy(s) == Some(Always)
    ensures Spelling(s, "NOT_NULL") ==> ParseStrategy(s) == Some(NotNull)
    ensures Spelling(s, "NOT_EMPTY") ==> ParseStrategy(s) == Some(NotEmpty)
    ensures Spelling(s, "NOT_ZERO") ==> ParseStrategy(s) == Some(NotZero)
    ensures Spelling(s, "NEVER") ==> ParseStrategy(s) == Some(Never)
  {
    hide Spelling, Normalized, OptionName;
    OptionNamed();
    if Spelling(s, "AUTO") { SpellingBack(s, "AUTO"); }
    if Spelling(s, "INPUT") { SpellingBack(s, "INPUT"); }
    if Spelling(s, "ASSIGN_ID") { SpellingBack(s, "ASSIGN_ID"); }
    if Spelling(s, "ASSIGN_UUID") { SpellingBack(s, "ASSIGN_UUID"); }
    if Spelling(s, "INSERT") { SpellingBack(s, "INSERT"); }
    if Spelling(s, "UPDATE") { SpellingBack(s, "UPDATE"); }
    if Spelling(s, "INSERT_UPDATE") { SpellingBack(s, "INSERT_UPDATE"); }
    if Spelling(s, "ALWAYS") { SpellingBack(s, "ALWAYS"); }
    if Spelling(s, "NOT_NULL") { SpellingBack(s, "NOT_NULL"); }
    if Spelling(s, "NOT_EMPTY") { SpellingBack(s, "NOT_EMPTY"); }
    if Spelling(s, "NOT_ZERO") { SpellingBack(s, "NOT_ZERO"); }
    if Spelling(s, "NEVER") { SpellingBack(s, "NEVER"); }
  }

  lemma OptionNamed()
    ensures OptionName("AUTO") && OptionName("INPUT") && OptionName("ASSIGN_ID") && OptionName("ASSIGN_UUID")
    ensures OptionName("INSERT") && OptionName("UPDATE") && OptionName("INSERT_UPDATE") && OptionName("ALWAYS")
    ensures OptionName("NOT_NULL") && OptionName("NOT_EMPTY") && OptionName("NOT_ZERO") && OptionName("NEVER")
  {
  }

  /** A transient field is no column, whatever else its tag says. */
  lemma TransientMeans(f: string, t: string, name: string)
    requires GoodName(name)
    ensures Read(f, t, Described(name, "transient=true"))
         == Some(NEW_COLUMN.(fieldName := f, fieldType := t, transient := true))
  {
    assert Show(Transient, Boolean(true)) == "transient=true";
    hide ParseTag, Show, AllMatch, OptionsParse, FillFirst, FillSecond;
    TwoParts(name, Transient, Boolean(true));
    TwoFlags(name, Transient, Boolean(true), Transient);
  }
}
