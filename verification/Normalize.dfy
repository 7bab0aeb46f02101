/**
 * Type and default normalisation (`diff/normalize.rs`) and the introspected type
 * enumeration (`schema/types.rs`).
 */
module Normalize {
  import opened Wrappers
  import opened Text

  /** `PgType`: how introspection classifies a column type. */
  datatype PgType =
    | Uuid | Text | Int4 | Int8 | Float8 | Bool | Timestamp | Timestamptz
    | Date | Jsonb | Json | Bytea | Numeric | Serial | BigSerial | Other(name: string)

  // The spellings that both matches accept for one type. The arms of either match are
  // disjoint, so the two functions below list them in one common order.

  predicate IsTextName(s: string) {
    s == "text" || s == "varchar" || s == "character varying" || s == "char" || s == "character"
  }

  predicate IsInt4Name(s: string) { s == "int4" || s == "integer" || s == "int" }

  predicate IsInt8Name(s: string) { s == "int8" || s == "bigint" }

  predicate IsFloat8Name(s: string) { s == "float8" || s == "double precision" }

  predicate IsBoolName(s: string) { s == "bool" || s == "boolean" }

  predicate IsTimestampName(s: string) { s == "timestamp" || s == "timestamp without time zone" }

  predicate IsTimestamptzName(s: string) { s == "timestamptz" || s == "timestamp with time zone" }

  predicate IsNumericName(s: string) { s == "numeric" || s == "decimal" }

  /** `normalize_type` */
  function NormalizeType(t: string): string {
    CanonicalName(Lower(Trim(t)))
  }

  /** The match of `normalize_type`, on a name already trimmed and in lower case. */
  function CanonicalName(s: string): string {
    if s == "uuid" then "uuid"
    else if IsTextName(s) then "text"
    else if IsInt4Name(s) then "int4"
    else if IsInt8Name(s) then "int8"
    else if IsFloat8Name(s) then "float8"
    else if IsBoolName(s) then "bool"
    else if IsTimestampName(s) then "timestamp"
    else if IsTimestamptzName(s) then "timestamptz"
    else if s == "date" then "date"
    else if s == "jsonb" then "jsonb"
    else if s == "json" then "json"
    else if s == "bytea" then "bytea"
    else if IsNumericName(s) then "numeric"
    else if s == "serial" then "int4"
    else if s == "bigserial" then "int8"
    else if s == "bpchar" then "text"
    else if s == "int2" || s == "smallint" then "int2"
    else if s == "float4" || s == "real" then "float4"
    else Lower(s)
  }

  /** `PgType::from_pg` */
  function FromPg(s: string): PgType {
    if s == "uuid" then Uuid
    else if IsTextName(s) then Text
    else if IsInt4Name(s) then Int4
    else if IsInt8Name(s) then Int8
    else if IsFloat8Name(s) then Float8
    else if IsBoolName(s) then Bool
    else if IsTimestampName(s) then Timestamp
    else if IsTimestamptzName(s) then Timestamptz
    else if s == "date" then Date
    else if s == "jsonb" then Jsonb
    else if s == "json" then Json
    else if s == "bytea" then Bytea
    else if IsNumericName(s) then Numeric
    else if s == "serial" then Serial
    else if s == "bigserial" then BigSerial
    else Other(s)
  }

  /** `pg_type_to_canonical` */
  function Canonical(t: PgType): string {
    match t
    case Uuid => "uuid"
    case Text => "text"
    case Int4 => "int4"
    case Int8 => "int8"
    case Float8 => "float8"
    case Bool => "bool"
    case Timestamp => "timestamp"
    case Timestamptz => "timestamptz"
    case Date => "date"
    case Jsonb => "jsonb"
    case Json => "json"
    case Bytea => "bytea"
    case Numeric => "numeric"
    case Serial => "int4"
    case BigSerial => "int8"
    case Other(name) => Lower(name)
  }

  /** `normalize_default` */
  function NormalizeDefault(d: string): string {
    CanonicalDefault(Trim(d))
  }

  function CanonicalDefault(trimmed: string): string {
    var lower := Lower(trimmed);
    if lower == "now()" || lower == "current_timestamp" || "now()::" <= lower then "now()"
    else if lower == "true" || lower == "'t'::boolean" then "true"
    else if lower == "false" || lower == "'f'::boolean" then "false"
    else if lower == "gen_random_uuid()" then "gen_random_uuid()"
    else trimmed
  }

  function NormalizeDefaultOption(d: Option<string>): Option<string> {
    match d case None => None case Some(e) => Some(NormalizeDefault(e))
  }

  /**
   * The two matches agree on every normalised name: read as the name of a catalogue type and made
   * canonical, it is itself again, for every type string.
   */
  lemma TypeReadsBack(t: string)
    ensures Canonical(FromPg(NormalizeType(t))) == NormalizeType(t)
  {
    var s := Lower(Trim(t));
    LowerIdempotent(Trim(t));
    NameKinds(s);
    hide CanonicalName, FromPg, Canonical;
    if !FromPg(s).Other? {
      CanonicalReadsBack(FromPg(s));
    } else if CanonicalName(s) == s {
      OtherReadsBack(s);
    } else {
      AliasReadsBack(CanonicalName(s));
    }
  }

  /** The two matches agree on every name, except for aliases that only the normaliser knows. */
  lemma NameKinds(s: string)
    requires s == Lower(s)
    ensures FromPg(s).Other? ==> FromPg(s) == Other(s)
    ensures !FromPg(s).Other? ==> CanonicalName(s) == Canonical(FromPg(s))
    ensures FromPg(s).Other? && CanonicalName(s) != s ==>
      CanonicalName(s) == "text" || CanonicalName(s) == "int2" || CanonicalName(s) == "float4"
  {
    hide IsTextName, IsInt4Name, IsInt8Name, IsFloat8Name, IsBoolName;
    hide IsTimestampName, IsTimestamptzName, IsNumericName;
  }

  lemma OtherReadsBack(s: string)
    requires FromPg(s) == Other(s) && s == Lower(s)
    ensures Canonical(FromPg(s)) == s
  {
    hide FromPg;
  }

  lemma AliasReadsBack(s: string)
    requires s == "text" || s == "int2" || s == "float4"
    ensures Canonical(FromPg(s)) == s
  {
    ShortNameKinds(s);
    hide FromPg;
    assert Lower("int2") == "int2" && Lower("float4") == "float4";
  }

  lemma ShortNameKinds(s: string)
    ensures s == "text" ==> FromPg(s) == Text
    ensures s == "int2" || s == "float4" ==> FromPg(s) == Other(s)
  {}

  lemma CanonicalReadsBack(p: PgType)
    requires !p.Other?
    ensures Canonical(FromPg(Canonical(p))) == Canonical(p)
    decreases p.Serial? || p.BigSerial?
  {
    hide FromPg;
    if p.Serial? {
      CanonicalReadsBack(Int4);
    } else if p.BigSerial? {
      CanonicalReadsBack(Int8);
    } else if p.Uuid? || p.Text? || p.Int4? || p.Int8? || p.Float8? || p.Bool? {
      ScalarReadsBack(p);
    } else {
      StructuredReadsBack(p);
    }
  }

  lemma ScalarReadsBack(p: PgType)
    requires p.Uuid? || p.Text? || p.Int4? || p.Int8? || p.Float8? || p.Bool?
    ensures FromPg(Canonical(p)) == p
  {}

  lemma StructuredReadsBack(p: PgType)
    requires p.Timestamp? || p.Timestamptz? || p.Date? || p.Jsonb? || p.Json? || p.Bytea? || p.Numeric?
    ensures FromPg(Canonical(p)) == p
  {}

  // ----- what the matches compute, spelling by spelling ---------------------------------------

  /** Which arm a normalised name comes from, its own name aside. */
  lemma CanonicalArms(s: string)
    requires s == Lower(s)
    ensures CanonicalName(s) == "text" ==> IsTextName(s) || s == "bpchar" || s == CanonicalName(s)
    ensures CanonicalName(s) == "int4" ==> IsInt4Name(s) || s == "serial" || s == CanonicalName(s)
    ensures CanonicalName(s) == "int2" ==> s == "int2" || s == "smallint" || s == CanonicalName(s)
    ensures CanonicalName(s) == "int8" ==> IsInt8Name(s) || s == "bigserial" || s == CanonicalName(s)
    ensures CanonicalName(s) == "float4" ==> s == "float4" || s == "real" || s == CanonicalName(s)
    ensures CanonicalName(s) == "float8" ==> IsFloat8Name(s) || s == CanonicalName(s)
    ensures CanonicalName(s) == "bool" ==> IsBoolName(s) || s == CanonicalName(s)
    ensures CanonicalName(s) == "timestamp" ==> IsTimestampName(s) || s == CanonicalName(s)
    ensures CanonicalName(s) == "timestamptz" ==> IsTimestamptzName(s) || s == CanonicalName(s)
    ensures CanonicalName(s) == "date" ==> s == "date" || s == CanonicalName(s)
    ensures CanonicalName(s) == "uuid" ==> s == "uuid" || s == CanonicalName(s)
    ensures CanonicalName(s) == "jsonb" ==> s == "jsonb" || s == CanonicalName(s)
    ensures CanonicalName(s) == "json" ==> s == "json" || s == CanonicalName(s)
    ensures CanonicalName(s) == "bytea" ==> s == "bytea" || s == CanonicalName(s)
    ensures CanonicalName(s) == "numeric" ==> IsNumericName(s) || s == CanonicalName(s)
    ensures CanonicalName(s) == "text" || CanonicalName(s) == "int4" || CanonicalName(s) == "int2"
      || CanonicalName(s) == "int8"
      || CanonicalName(s) == "float4" || CanonicalName(s) == "float8" || CanonicalName(s) == "bool"
      || CanonicalName(s) == "timestamp"
      || CanonicalName(s) == "timestamptz" || CanonicalName(s) == "date" || CanonicalName(s) == "uuid"
      || CanonicalName(s) == "jsonb" || CanonicalName(s) == "json" || CanonicalName(s) == "bytea"
      || CanonicalName(s) == "numeric" || CanonicalName(s) == s
  {
    hide IsTextName, IsInt4Name, IsInt8Name, IsFloat8Name, IsBoolName;
    hide IsTimestampName, IsTimestamptzName, IsNumericName;
  }

  lemma TextSpellings(s: string)
    requires s == Lower(s)
    ensures CanonicalName(s) == "text" <==>
      s == "text" || s == "varchar" || s == "character varying" || s == "char" || s == "character" || s == "bpchar"
  {
    CanonicalArms(s);
  }

  lemma Int4Spellings(s: string)
    requires s == Lower(s)
    ensures CanonicalName(s) == "int4" <==> s == "int4" || s == "integer" || s == "int" || s == "serial"
  {
    CanonicalArms(s);
  }

  lemma Int2Spellings(s: string)
    requires s == Lower(s)
    ensures CanonicalName(s) == "int2" <==> s == "int2" || s == "smallint"
  {
    CanonicalArms(s);
  }

  lemma Int8Spellings(s: string)
    requires s == Lower(s)
    ensures CanonicalName(s) == "int8" <==> s == "int8" || s == "bigint" || s == "bigserial"
  {
    CanonicalArms(s);
  }

  lemma Float4Spellings(s: string)
    requires s == Lower(s)
    ensures CanonicalName(s) == "float4" <==> s == "float4" || s == "real"
  {
    CanonicalArms(s);
  }

  lemma Float8Spellings(s: string)
    requires s == Lower(s)
    ensures CanonicalName(s) == "float8" <==> s == "float8" || s == "double precision"
  {
    CanonicalArms(s);
  }

  lemma BoolSpellings(s: string)
    requires s == Lower(s)
    ensures CanonicalName(s) == "bool" <==> s == "bool" || s == "boolean"
  {
    CanonicalArms(s);
  }

  lemma TimestampSpellings(s: string)
    requires s == Lower(s)
    ensures CanonicalName(s) == "timestamp" <==> s == "timestamp" || s == "timestamp without time zone"
  {
    CanonicalArms(s);
  }

  lemma TimestamptzSpellings(s: string)
    requires s == Lower(s)
    ensures CanonicalName(s) == "timestamptz" <==> s == "timestamptz" || s == "timestamp with time zone"
  {
    CanonicalArms(s);
  }

  lemma DateSpellings(s: string)
    requires s == Lower(s)
    ensures CanonicalName(s) == "date" <==> s == "date"
  {
    CanonicalArms(s);
  }

  lemma UuidSpellings(s: string)
    requires s == Lower(s)
    ensures CanonicalName(s) == "uuid" <==> s == "uuid"
  {
    CanonicalArms(s);
  }

  lemma JsonbSpellings(s: string)
    requires s == Lower(s)
    ensures CanonicalName(s) == "jsonb" <==> s == "jsonb"
  {
    CanonicalArms(s);
  }

  lemma JsonSpellings(s: string)
    requires s == Lower(s)
    ensures CanonicalName(s) == "json" <==> s == "json"
  {
    CanonicalArms(s);
  }

  lemma ByteaSpellings(s: string)
    requires s == Lower(s)
    ensures CanonicalName(s) == "bytea" <==> s == "bytea"
  {
    CanonicalArms(s);
  }

  lemma NumericSpellings(s: string)
    requires s == Lower(s)
    ensures CanonicalName(s) == "numeric" <==> s == "numeric" || s == "decimal"
  {
    CanonicalArms(s);
  }

  /**
   * `normalize_type`: the canonical name of every spelling, letter case and outer white space aside;
   * every other name is kept.
   */
  lemma TypeSpellings(t: string)
    ensures var s, r := Lower(Trim(t)), NormalizeType(t);
      && (r == "text" <==>
           s == "text" || s == "varchar" || s == "character varying" || s == "char" || s == "character" || s == "bpchar")
      && (r == "int4" <==> s == "int4" || s == "integer" || s == "int" || s == "serial")
      && (r == "int2" <==> s == "int2" || s == "smallint")
      && (r == "int8" <==> s == "int8" || s == "bigint" || s == "bigserial")
      && (r == "float4" <==> s == "float4" || s == "real")
      && (r == "float8" <==> s == "float8" || s == "double precision")
      && (r == "bool" <==> s == "bool" || s == "boolean")
      && (r == "timestamp" <==> s == "timestamp" || s == "timestamp without time zone")
      && (r == "timestamptz" <==> s == "timestamptz" || s == "timestamp with time zone")
      && (r == "date" <==> s == "date")
      && (r == "uuid" <==> s == "uuid")
      && (r == "jsonb" <==> s == "jsonb")
      && (r == "json" <==> s == "json")
      && (r == "bytea" <==> s == "bytea")
      && (r == "numeric" <==> s == "numeric" || s == "decimal")
      && (r != s ==>
            || r == "text" || r == "int4" || r == "int2" || r == "int8" || r == "float4" || r == "float8"
            || r == "bool" || r == "timestamp" || r == "timestamptz" || r == "numeric")
  {
    var s := Lower(Trim(t));
    LowerIdempotent(Trim(t));
    NormalizedName(t);
    hide *;
    CanonicalArms(s);
    TextSpellings(s);
    Int4Spellings(s);
    Int2Spellings(s);
    Int8Spellings(s);
    Float4Spellings(s);
    Float8Spellings(s);
    BoolSpellings(s);
    TimestampSpellings(s);
    TimestamptzSpellings(s);
    DateSpellings(s);
    UuidSpellings(s);
    JsonbSpellings(s);
    JsonSpellings(s);
    ByteaSpellings(s);
    NumericSpellings(s);
  }

  lemma NormalizedName(t: string)
    ensures NormalizeType(t) == CanonicalName(Lower(Trim(t)))
  {
    hide CanonicalName, Trim, Lower;
  }

  /** `PgType::from_pg`, spelling by spelling. */
  lemma CatalogueSpellings(s: string)
    ensures FromPg(s).Other? ==> FromPg(s) == Other(s)
    ensures FromPg(s) == Text <==>
      s == "text" || s == "varchar" || s == "character varying" || s == "char" || s == "character"
    ensures FromPg(s) == Int4 <==> s == "int4" || s == "integer" || s == "int"
    ensures FromPg(s) == Int8 <==> s == "int8" || s == "bigint"
    ensures FromPg(s) == Float8 <==> s == "float8" || s == "double precision"
    ensures FromPg(s) == Bool <==> s == "bool" || s == "boolean"
    ensures FromPg(s) == Timestamp <==> s == "timestamp" || s == "timestamp without time zone"
    ensures FromPg(s) == Timestamptz <==> s == "timestamptz" || s == "timestamp with time zone"
    ensures FromPg(s) == Date <==> s == "date"
    ensures FromPg(s) == Uuid <==> s == "uuid"
    ensures FromPg(s) == Jsonb <==> s == "jsonb"
    ensures FromPg(s) == Json <==> s == "json"
    ensures FromPg(s) == Bytea <==> s == "bytea"
    ensures FromPg(s) == Numeric <==> s == "numeric" || s == "decimal"
    ensures FromPg(s) == Serial <==> s == "serial"
    ensures FromPg(s) == BigSerial <==> s == "bigserial"
  {}

  /** `pg_type_to_canonical`, name by name. */
  lemma CanonicalTypes(p: PgType)
    ensures !p.Other? ==> (Canonical(p) == "text" <==> p == Text)
    ensures !p.Other? ==> (Canonical(p) == "int4" <==> p == Int4 || p == Serial)
    ensures !p.Other? ==> (Canonical(p) == "int8" <==> p == Int8 || p == BigSerial)
    ensures !p.Other? ==> (Canonical(p) == "float8" <==> p == Float8)
    ensures !p.Other? ==> (Canonical(p) == "bool" <==> p == Bool)
    ensures !p.Other? ==> (Canonical(p) == "timestamp" <==> p == Timestamp)
    ensures !p.Other? ==> (Canonical(p) == "timestamptz" <==> p == Timestamptz)
    ensures !p.Other? ==> (Canonical(p) == "date" <==> p == Date)
    ensures !p.Other? ==> (Canonical(p) == "uuid" <==> p == Uuid)
    ensures !p.Other? ==> (Canonical(p) == "jsonb" <==> p == Jsonb)
    ensures !p.Other? ==> (Canonical(p) == "json" <==> p == Json)
    ensures !p.Other? ==> (Canonical(p) == "bytea" <==> p == Bytea)
    ensures !p.Other? ==> (Canonical(p) == "numeric" <==> p == Numeric)
    ensures p.Other? ==> Canonical(p) == Lower(p.name)
  {}

  /** `normalize_default`: the five expressions it knows in their spellings; every other one is kept, trimmed. */
  lemma DefaultSpellings(d: string)
    ensures var s, r := Lower(Trim(d)), NormalizeDefault(d);
      && (r == "now()" <==> s == "now()" || s == "current_timestamp" || "now()::" <= s)
      && (r == "true" <==> s == "true" || s == "'t'::boolean")
      && (r == "false" <==> s == "false" || s == "'f'::boolean")
      && (r == "gen_random_uuid()" <==> s == "gen_random_uuid()")
      && (r == "now()" || r == "true" || r == "false" || r == "gen_random_uuid()" || r == Trim(d))
  {
    NormalizedTrim(d);
    LiteralsLower();
    hide *;
    DefaultArms(Trim(d), Lower(Trim(d)));
  }

  lemma LiteralsLower()
    ensures Lower("now()") == "now()" && Lower("true") == "true" && Lower("false") == "false"
    ensures Lower("gen_random_uuid()") == "gen_random_uuid()"
  {
    LowerFixes("now()");
    LowerFixes("true");
    LowerFixes("false");
    LowerFixes("gen_random_uuid()");
  }

  lemma DefaultArms(trimmed: string, s: string)
    requires s == Lower(trimmed)
    requires Lower("now()") == "now()" && Lower("true") == "true" && Lower("false") == "false"
    requires Lower("gen_random_uuid()") == "gen_random_uuid()"
    ensures var r := CanonicalDefault(trimmed);
      && (r == "now()" <==> s == "now()" || s == "current_timestamp" || "now()::" <= s)
      && (r == "true" <==> s == "true" || s == "'t'::boolean")
      && (r == "false" <==> s == "false" || s == "'f'::boolean")
      && (r == "gen_random_uuid()" <==> s == "gen_random_uuid()")
      && (r == "now()" || r == "true" || r == "false" || r == "gen_random_uuid()" || r == trimmed)
  {
    hide Lower;
    assert "now()"[0] == 'n' && "current_timestamp"[0] == 'c' && "now()::"[0] == 'n' && "true"[0] == 't';
    assert "'t'::boolean"[0] == '\'' && "false"[0] == 'f' && "'f'::boolean"[0] == '\'' && "gen_random_uuid()"[0] == 'g';
    assert "'t'::boolean"[1] == 't' && "'f'::boolean"[1] == 'f';
  }

  /** Normalising a default twice changes nothing more. */
  lemma DefaultIdempotent(d: string)
    ensures NormalizeDefault(NormalizeDefault(d)) == NormalizeDefault(d)
  {
    NormalizedDefaults(d);
    var n := NormalizeDefault(d);
    hide CanonicalDefault;
    if n == Trim(d) {
      TrimFixes(Trim(d));
    } else {
      LiteralsAreFixed();
    }
  }

  lemma NormalizedDefaults(d: string)
    ensures NormalizeDefault(d) in {Trim(d), "now()", "true", "false", "gen_random_uuid()"}
  {}

  lemma LiteralsAreFixed()
    ensures NormalizeDefault("now()") == "now()"
    ensures NormalizeDefault("true") == "true"
    ensures NormalizeDefault("false") == "false"
    ensures NormalizeDefault("gen_random_uuid()") == "gen_random_uuid()"
  {
    LiteralFixed("now()");
    LiteralFixed("true");
    LiteralFixed("false");
    LiteralFixed("gen_random_uuid()");
  }

  lemma LiteralFixed(s: string)
    requires s == "now()" || s == "true" || s == "false" || s == "gen_random_uuid()"
    ensures NormalizeDefault(s) == s
  {
    assert forall i :: 0 <= i < |s| ==> LowerChar(s[i]) == s[i];
    assert Trimmed(s);
    LiteralKept(s);
    hide *;
    TrimFixes(s);
    NormalizedTrim(s);
  }

  lemma LiteralKept(s: string)
    requires s == "now()" || s == "true" || s == "false" || s == "gen_random_uuid()"
    requires forall i :: 0 <= i < |s| ==> LowerChar(s[i]) == s[i]
    ensures CanonicalDefault(s) == s
  {
    assert Lower(s) == s;
    assert "now()"[0] == 'n' && "current_timestamp"[0] == 'c' && "now()::"[0] == 'n' && "true"[0] == 't';
    assert "'t'::boolean"[0] == '\'' && "false"[0] == 'f' && "'f'::boolean"[0] == '\'' && "gen_random_uuid()"[0] == 'g';
    hide Lower;
  }

  /** An expression that starts with a quote and a `d` is none the normalisation knows. */
  lemma KeptDefault(d: string)
    requires |d| > 2 && d[0] == '\'' && d[1] == 'd' && !IsSpace(d[|d| - 1])
    ensures NormalizeDefault(d) == d
  {
    UnknownDefault(d, Lower(d));
    hide *;
    QuoteFirst(d);
    TrimFixes(d);
    NormalizedTrim(d);
  }

  lemma QuoteFirst(d: string)
    requires |d| > 2 && d[0] == '\'' && !IsSpace(d[|d| - 1])
    ensures Trimmed(d)
  {}

  lemma NormalizedTrim(d: string)
    ensures NormalizeDefault(d) == CanonicalDefault(Trim(d))
  {
    hide CanonicalDefault, Trim;
  }

  lemma UnknownDefault(d: string, lower: string)
    requires |d| > 2 && d[0] == '\'' && d[1] == 'd' && lower == Lower(d)
    ensures CanonicalDefault(d) == d
  {
    assert lower[0] == '\'' && lower[1] == 'd';
    assert "now()"[0] == 'n' && "current_timestamp"[0] == 'c' && "now()::"[0] == 'n' && "true"[0] == 't';
    assert "'t'::boolean"[1] == 't' && "false"[0] == 'f' && "'f'::boolean"[1] == 'f' && "gen_random_uuid()"[0] == 'g';
    hide Lower;
  }

  lemma TextTypeKept()
    ensures NormalizeType("text") == "text"
  {
    TrimFixes("text");
    LowerFixes("text");
  }

  /** A name with a parenthesis as its eighth character is none the matches know. */
  lemma ModifiedTypeKept(s: string)
    requires |s| > 7 && s[7] == '('
    ensures CanonicalName(s) == Lower(s)
  {
    LongNames(s);
    hide IsTextName, IsInt4Name, IsInt8Name, IsFloat8Name, IsBoolName, IsTimestampName, IsTimestamptzName, IsNumericName, Lower;
    assert |"uuid"| <= 7 && |"date"| <= 7 && |"jsonb"| <= 7 && |"json"| <= 7 && |"bytea"| <= 7 && |"serial"| <= 7;
    assert "bigserial"[7] == 'a' && "smallint"[7] == 't';
    assert |"bpchar"| <= 7 && |"int2"| <= 7 && |"float4"| <= 7 && |"real"| <= 7;
  }

  lemma LongNames(s: string)
    requires |s| > 7 && s[7] == '('
    ensures !IsTextName(s) && !IsInt4Name(s) && !IsInt8Name(s) && !IsFloat8Name(s) && !IsBoolName(s)
    ensures !IsTimestampName(s) && !IsTimestamptzName(s) && !IsNumericName(s)
  {
    assert "character varying"[7] == 'e' && "character"[7] == 'e' && "double precision"[7] == 'p';
    assert "timestamp"[7] == 'm' && "timestamp without time zone"[7] == 'm';
    assert "timestamptz"[7] == 'm' && "timestamp with time zone"[7] == 'm';
  }

  lemma ModifiedTypeNormalised(s: string)
    requires |s| > 7 && s[7] == '(' && Trimmed(s)
    requires forall i :: 0 <= i < |s| ==> !('A' <= s[i] <= 'Z')
    ensures NormalizeType(s) == s
  {
    hide CanonicalName, Trim, Trimmed, Lower;
    TrimFixes(s);
    LowerFixes(s);
    ModifiedTypeKept(s);
  }

  lemma VarcharNames()
    ensures NormalizeType("varchar(255)") == "varchar(255)"
    ensures Canonical(FromPg("varchar")) == "text" && "text" != "varchar(255)"
  {
    var s := "varchar(255)";
    assert !IsSpace('v') && !IsSpace(')');
    hide IsSpace;
    assert |s| == 12 && s[7] == '(' && s[0] == 'v' && s[11] == ')';
    hide NormalizeType;
    ModifiedTypeNormalised(s);
    TextNameIsText("varchar");
    assert |"text"| == 4;
  }

  lemma TextNameIsText(s: string)
    requires IsTextName(s)
    ensures Canonical(FromPg(s)) == "text"
  {
    assert |"uuid"| == 4 && "uuid"[0] == 'u' && "text"[0] == 't' && "char"[0] == 'c';
  }
}
