/** The SQL text the native fast path generates: identifiers are spliced into the text, values are
    bound to placeholders. The text is read back by a grammar written independently of it. */
module SqlStatements {
  import opened Basics
  import opened Text
  import opened Numbers
  import QueryString

  datatype Number = Integer(n: int) | Fraction(r: real)

  datatype Json = JsonNull | JsonBool(b: bool) | JsonNumber(number: Number) | JsonString(s: string) | JsonComposite(text: string)

  datatype Value = NullString | Bool(b: bool) | BigInt(n: int) | Double(r: real) | Text(s: string) | JsonText(text: string)

  datatype Body = Malformed | NotAnObject | Object(members: seq<(string, Json)>)

  datatype Statement = Statement(sql: string, values: seq<Value>)

  datatype SqlError =
    | EmptyIdentifier | InvalidIdentifier(name: string) | IdRequired | BadJson | ObjectRequired | EmptyBody | Unsupported

  predicate IdentifierChar(c: char) {
    'a' <= c <= 'z' || 'A' <= c <= 'Z' || '0' <= c <= '9' || c == '_'
  }

  predicate Identifier(name: string) {
    name != "" && forall c :: c in name ==> IdentifierChar(c)
  }

  /** The characters of names: letters, digits and the underscore. */
  predicate NameChar(c: char) {
    c in CAPITALS || c in SMALLS || c in DIGITS || c == '_'
  }

  lemma NameCharExact(c: char)
    ensures IdentifierChar(c) <==> NameChar(c)
  {
    CapitalsExact(c);
    SmallsExact(c);
    DigitsExact(c);
  }

  lemma IdentifierExact(name: string)
    ensures Identifier(name) <==> name != "" && forall i :: 0 <= i < |name| ==> NameChar(name[i])
  {
    forall c | c in name ensures IdentifierChar(c) <==> NameChar(c) {
      NameCharExact(c);
    }
  }

  function IdentifierError(name: string): SqlError {
    if name == "" then EmptyIdentifier else InvalidIdentifier(name)
  }

  /** The byte loop of the validator. */
  method ValidateIdentifier(name: string) returns (r: Result<string, SqlError>)
    ensures r == if Identifier(name) then Ok(name) else Err(IdentifierError(name))
    ensures r.Ok? <==> name != "" && forall i :: 0 <= i < |name| ==> NameChar(name[i])
    ensures r == Ok(name) || r == if name == "" then Err(EmptyIdentifier) else Err(InvalidIdentifier(name))
  {
    IdentifierExact(name);
    if name == "" {
      return Err(EmptyIdentifier);
    }
    for i := 0 to |name|
      invariant forall j :: 0 <= j < i ==> IdentifierChar(name[j])
    {
      if !IdentifierChar(name[i]) {
        assert name[i] in name;
        return Err(InvalidIdentifier(name));
      }
    }
    r := Ok(name);
  }

  /** A number that fits 64 bits stays exact, any other becomes a floating-point value. */
  function ToValue(v: Json): Value {
    match v
    case JsonNull => NullString
    case JsonBool(b) => Bool(b)
    case JsonNumber(Integer(n)) =>
      if -0x8000_0000_0000_0000 <= n < 0x8000_0000_0000_0000 then BigInt(n) else Double(n as real)
    case JsonNumber(Fraction(r)) => Double(r)
    case JsonString(s) => Text(s)
    case JsonComposite(text) => JsonText(text)
  }

  /** The value bound for a member: null as the absent string, a number that fits 64 bits as itself
      and any other as a floating-point value, everything else as it is. */
  predicate Binds(v: Value, j: Json) {
    && (j.JsonNull? ==> v.NullString?)
    && (j.JsonBool? ==> v.Bool? && v.b == j.b)
    && (j.JsonString? ==> v.Text? && v.s == j.s)
    && (j.JsonComposite? ==> v.JsonText? && v.text == j.text)
    && (j.JsonNumber? && j.number.Fraction? ==> v.Double? && v.r == j.number.r)
    && (j.JsonNumber? && j.number.Integer? ==>
          if -9223372036854775808 <= j.number.n <= 9223372036854775807 then v.BigInt? && v.n == j.number.n
          else v.Double? && v.r == j.number.n as real)
  }

  /** The first values are those of the members, in order. */
  predicate BindsMembers(values: seq<Value>, members: seq<(string, Json)>) {
    |members| <= |values| && forall i :: 0 <= i < |members| ==> Binds(values[i], members[i].1)
  }

  // ----- the grammar

  /** What a generated statement says: a table, columns in order, and for an insertion how many
      values follow. */
  datatype Query =
    | Insert(table: string, columns: seq<string>, marks: nat)
    | Update(table: string, columns: seq<string>)
    | Select(table: string)
    | Delete(table: string)
    | Page(table: string, limit: nat, offset: nat)
  {
    predicate Valid() {
      && Identifier(table)
      && (Insert? ==> marks > 0)
      && (Insert? || Update? ==> columns != [] && forall c :: c in columns ==> Identifier(c))
    }

    /** How many values the statement expects. */
    function Arity(): nat {
      match this
      case Insert(_, _, marks) => marks
      case Update(_, columns) => |columns| + 1
      case Page(_, _, _) => 0
      case _ => 1
    }
  }

  /** The two sides of the first occurrence of sep. */
  function Cut(s: string, sep: string): Option<(string, string)> {
    match Find(s, sep, 0)
    case None => None
    case Some(i) => Some((s[..i], s[i + |sep|..]))
  }

  function StripPrefix(s: string, prefix: string): (r: Option<string>)
    ensures forall t :: r == Some(t) <==> s == prefix + t
  {
    if prefix <= s then
      assert s == prefix + s[|prefix|..];
      Some(s[|prefix|..])
    else
      assert forall t :: prefix <= prefix + t;
      None
  }

  function StripSuffix(s: string, suffix: string): (r: Option<string>)
    ensures forall t :: r == Some(t) <==> s == t + suffix
  {
    var n := |s| - |suffix|;
    if n >= 0 && s[n..] == suffix then Some(s[..n]) else None
  }

  predicate AllMarks(marks: seq<string>) {
    forall m :: m in marks ==> m == "?"
  }

  /** The column list and the value list, from after the opening parenthesis. */
  function CutLists(r: string): Option<(string, string)> {
    match Cut(r, ") VALUES (")
    case None => None
    case Some((columns, r)) =>
      match StripSuffix(r, ")")
      case None => None
      case Some(marks) => Some((columns, marks))
  }

  /** The table, the column list and the value list of an INSERT text. */
  function CutInsert(s: string): Option<(string, string, string)> {
    match StripPrefix(s, "INSERT INTO ")
    case None => None
    case Some(r) =>
      match Cut(r, " (")
      case None => None
      case Some((table, r)) =>
        match CutLists(r)
        case None => None
        case Some((columns, marks)) => Some((table, columns, marks))
  }

  function ParseInsert(s: string): Option<Query> {
    match CutInsert(s)
    case None => None
    case Some((table, columns, marks)) =>
      var query := Insert(table, Split(columns, ", "), |Split(marks, ", ")|);
      if query.Valid() && AllMarks(Split(marks, ", ")) then Some(query) else None
  }

  /** Each clause without its " = ?". */
  function ClauseColumns(clauses: seq<string>): Option<seq<string>> {
    if clauses == [] then Some([])
    else
      match (StripSuffix(clauses[0], " = ?"), ClauseColumns(clauses[1..]))
      case (Some(c), Some(rest)) => Some([c] + rest)
      case _ => None
  }

  /** The table and the assignment list of an UPDATE text. */
  function CutUpdate(s: string): Option<(string, string)> {
    match StripPrefix(s, "UPDATE ")
    case None => None
    case Some(r) =>
      match Cut(r, " SET")
      case None => None
      case Some((table, r)) =>
        match StripPrefix(r, " ")
        case None => None
        case Some(r) =>
          match StripSuffix(r, " WHERE id = ?")
          case None => None
          case Some(clauses) => Some((table, clauses))
  }

  function ParseUpdate(s: string): Option<Query> {
    match CutUpdate(s)
    case None => None
    case Some((table, clauses)) =>
      match ClauseColumns(Split(clauses, ", "))
      case None => None
      case Some(columns) => if Update(table, columns).Valid() then Some(Update(table, columns)) else None
  }

  function CutNumbers(r: string): Option<(string, string)> {
    match StripPrefix(r, " ")
    case None => None
    case Some(r) =>
      match Cut(r, " OFFSET")
      case None => None
      case Some((limit, r)) =>
        match StripPrefix(r, " ")
        case None => None
        case Some(offset) => Some((limit, offset))
  }

  /** The table, the limit and the offset of a listing text. */
  function CutPage(s: string): Option<(string, string, string)> {
    match StripPrefix(s, "SELECT * FROM ")
    case None => None
    case Some(r) =>
      match Cut(r, " LIMIT")
      case None => None
      case Some((table, r)) =>
        match CutNumbers(r)
        case None => None
        case Some((limit, offset)) => Some((table, limit, offset))
  }

  function ParsePage(s: string): Option<Query> {
    match CutPage(s)
    case None => None
    case Some((table, limit, offset)) =>
      match (ReadDecimal(limit), ReadDecimal(offset))
      case (Some(l), Some(o)) => if Identifier(table) then Some(Page(table, l, o)) else None
      case _ => None
  }

  /** A number in its shortest decimal form. */
  function ReadDecimal(s: string): Option<nat> {
    match DigitsValue(s)
    case None => None
    case Some(n) => if Decimal(n) == s then Some(n) else None
  }

  lemma ReadDecimalBack(n: nat)
    ensures ReadDecimal(Decimal(n)) == Some(n)
  {
    DecimalValue(n);
  }

  function ParseById(s: string, prefix: string): Option<string> {
    match StripPrefix(s, prefix)
    case None => None
    case Some(r) =>
      match StripSuffix(r, " WHERE id = ?")
      case None => None
      case Some(table) => if Identifier(table) then Some(table) else None
  }

  // ----- the text

  function Marks(n: nat): (r: seq<string>)
    ensures |r| == n && forall m :: m in r ==> m == "?"
  {
    seq(n, _ => "?")
  }

  function Clauses(columns: seq<string>): (r: seq<string>)
    ensures |r| == |columns| && forall i :: 0 <= i < |r| ==> r[i] == columns[i] + " = ?"
  {
    seq(|columns|, i requires 0 <= i < |columns| => columns[i] + " = ?")
  }

  function InsertText(table: string, columns: string, marks: string): string {
    "INSERT INTO " + (table + " (" + (columns + ") VALUES (" + (marks + ")")))
  }

  function UpdateText(table: string, clauses: string): string {
    "UPDATE " + (table + " SET" + (" " + (clauses + " WHERE id = ?")))
  }

  function Rendered(q: Query): string {
    match q
    case Insert(table, columns, marks) => InsertText(table, Join(columns, ", "), Join(Marks(marks), ", "))
    case Update(table, columns) => UpdateText(table, Join(Clauses(columns), ", "))
    case Select(table) => "SELECT * FROM " + (table + " WHERE id = ?")
    case Delete(table) => "DELETE FROM " + (table + " WHERE id = ?")
    case Page(table, limit, offset) => PageText(table, Decimal(limit), Decimal(offset))
  }

  function NumbersText(limit: string, offset: string): string {
    " " + (limit + " OFFSET" + (" " + offset))
  }

  function PageText(table: string, limit: string, offset: string): string {
    "SELECT * FROM " + (table + " LIMIT" + NumbersText(limit, offset))
  }

  lemma FindAbsent(s: string, sep: string, k: nat)
    requires k < |sep| && sep[k] !in s
    ensures Find(s, sep, 0) == None
  {
    forall j | 0 <= j <= |s| ensures !At(s, j, sep) {
      assert j + k < |s| ==> s[j + k] in s;
    }
    FindNone(s, sep);
  }

  lemma CutPieces(s: string, sep: string)
    requires Separator(sep) && Cut(s, sep).Some?
    ensures s == Cut(s, sep).value.0 + sep + Cut(s, sep).value.1
  {
    var head, tail := CutAtFirst(s, sep);
    CutBack(head, sep, tail);
  }

  lemma CutBack(a: string, sep: string, b: string)
    requires Separator(sep) && Find(a, sep, 0) == None
    ensures Cut(a + sep + b, sep) == Some((a, b))
  {
    FindConcat(a, b, sep);
    DropMiddle(a, sep, b);
  }

  lemma {:induction false} JoinChars(parts: seq<string>, sep: string, c: char)
    requires c !in sep && forall p :: p in parts ==> c !in p
    ensures c !in Join(parts, sep)
  {
    if |parts| <= 1 {
    } else {
      JoinChars(parts[1..], sep, c);
    }
  }

  /** An identifier holds none of the characters the texts around it are made of. */
  lemma IdentifierFree(name: string, sep: string)
    requires Identifier(name) && sep != "" && !IdentifierChar(sep[0])
    ensures Find(name, sep, 0) == None
  {
    FindAbsent(name, sep, 0);
  }

  lemma ColumnsFree(columns: seq<string>)
    requires forall c :: c in columns ==> Identifier(c)
    ensures ')' !in Join(columns, ", ") && forall c :: c in columns ==> Find(c, ", ", 0) == None
  {
    JoinChars(columns, ", ", ')');
    forall c | c in columns ensures Find(c, ", ", 0) == None {
      IdentifierFree(c, ", ");
    }
  }

  lemma MarksFree(n: nat)
    requires n > 0
    ensures Split(Join(Marks(n), ", "), ", ") == Marks(n)
  {
    forall m | m in Marks(n) ensures Find(m, ", ", 0) == None {
      FindAbsent(m, ", ", 0);
    }
    SplitJoin(Marks(n), ", ");
  }

  lemma CutInsertText(table: string, columns: string, marks: string)
    requires Identifier(table) && ')' !in columns
    ensures CutInsert(InsertText(table, columns, marks)) == Some((table, columns, marks))
  {
    IdentifierFree(table, " (");
    FindAbsent(columns, ") VALUES (", 0);
    CutBack(table, " (", columns + ") VALUES (" + (marks + ")"));
    CutBack(columns, ") VALUES (", marks + ")");
  }

  lemma ParseInsertRendered(table: string, columns: seq<string>, marks: nat)
    requires Insert(table, columns, marks).Valid()
    ensures ParseInsert(Rendered(Insert(table, columns, marks))) == Some(Insert(table, columns, marks))
  {
    ColumnsFree(columns);
    MarksFree(marks);
    SplitJoin(columns, ", ");
    CutInsertText(table, Join(columns, ", "), Join(Marks(marks), ", "));
  }

  lemma ListsCut(r: string)
    requires CutLists(r).Some?
    ensures var (columns, marks) := CutLists(r).value; r == columns + ") VALUES (" + (marks + ")")
  {
    CutPieces(r, ") VALUES (");
  }

  lemma InsertTextCut(s: string)
    requires CutInsert(s).Some?
    ensures var (table, columns, marks) := CutInsert(s).value; s == InsertText(table, columns, marks)
  {
    var r := StripPrefix(s, "INSERT INTO ").value;
    CutPieces(r, " (");
    ListsCut(Cut(r, " (").value.1);
  }

  lemma MarksOnly(marks: seq<string>)
    requires AllMarks(marks)
    ensures marks == Marks(|marks|)
  {
    assert forall i :: 0 <= i < |marks| ==> marks[i] in marks;
  }

  lemma RenderedParseInsert(s: string, q: Query)
    requires ParseInsert(s) == Some(q)
    ensures q.Insert? && q.Valid() && s == Rendered(q)
  {
    InsertTextCut(s);
    var (_, columns, marks) := CutInsert(s).value;
    JoinSplit(columns, ", ");
    JoinSplit(marks, ", ");
    MarksOnly(Split(marks, ", "));
  }

  /** An INSERT text says exactly one thing: parsing gives a query just when the text is that
      valid query's own. */
  lemma InsertExact(s: string, q: Query)
    ensures ParseInsert(s) == Some(q) <==> q.Insert? && q.Valid() && s == Rendered(q)
  {
    if ParseInsert(s) == Some(q) {
      RenderedParseInsert(s, q);
    }
    if q.Insert? && q.Valid() && s == Rendered(q) {
      ParseInsertRendered(q.table, q.columns, q.marks);
    }
  }

  lemma {:induction false} ClauseColumnsExact(clauses: seq<string>, columns: seq<string>)
    ensures ClauseColumns(clauses) == Some(columns) <==> clauses == Clauses(columns)
  {
    if clauses == [] || columns == [] {
    } else {
      ClauseColumnsExact(clauses[1..], columns[1..]);
      var c, rest := StripSuffix(clauses[0], " = ?"), ClauseColumns(clauses[1..]);
      if c.Some? && rest.Some? {
        ColumnsCons(c.value, rest.value, columns);
      }
    }
  }

  lemma ColumnsCons(c: string, rest: seq<string>, columns: seq<string>)
    requires columns != []
    ensures [c] + rest == columns <==> c == columns[0] && rest == columns[1..]
  {
    assert columns == [columns[0]] + columns[1..];
    assert ([c] + rest)[0] == c && ([c] + rest)[1..] == rest;
  }

  lemma ClausesFree(columns: seq<string>)
    requires columns != [] && forall c :: c in columns ==> Identifier(c)
    ensures Split(Join(Clauses(columns), ", "), ", ") == Clauses(columns)
  {
    forall clause | clause in Clauses(columns) ensures Find(clause, ", ", 0) == None {
      var i :| 0 <= i < |columns| && clause == columns[i] + " = ?";
      assert Identifier(columns[i]);
      FindAbsent(clause, ", ", 0);
    }
    SplitJoin(Clauses(columns), ", ");
  }

  lemma CutUpdateText(table: string, clauses: string)
    requires Identifier(table)
    ensures CutUpdate(UpdateText(table, clauses)) == Some((table, clauses))
  {
    IdentifierFree(table, " SET");
    CutBack(table, " SET", " " + (clauses + " WHERE id = ?"));
  }

  lemma ParseUpdateRendered(table: string, columns: seq<string>)
    requires Update(table, columns).Valid()
    ensures ParseUpdate(Rendered(Update(table, columns))) == Some(Update(table, columns))
  {
    ClausesFree(columns);
    ClauseColumnsExact(Clauses(columns), columns);
    CutUpdateText(table, Join(Clauses(columns), ", "));
  }

  lemma UpdateTextCut(s: string)
    requires CutUpdate(s).Some?
    ensures var (table, clauses) := CutUpdate(s).value; s == UpdateText(table, clauses)
  {
    var r := StripPrefix(s, "UPDATE ").value;
    CutPieces(r, " SET");
  }

  lemma RenderedParseUpdate(s: string, q: Query)
    requires ParseUpdate(s) == Some(q)
    ensures q.Update? && q.Valid() && s == Rendered(q)
  {
    UpdateTextCut(s);
    var (_, clauses) := CutUpdate(s).value;
    JoinSplit(clauses, ", ");
    ClauseColumnsExact(Split(clauses, ", "), q.columns);
  }

  lemma UpdateExact(s: string, q: Query)
    ensures ParseUpdate(s) == Some(q) <==> q.Update? && q.Valid() && s == Rendered(q)
  {
    if ParseUpdate(s) == Some(q) {
      RenderedParseUpdate(s, q);
    }
    if q.Update? && q.Valid() && s == Rendered(q) {
      ParseUpdateRendered(q.table, q.columns);
    }
  }

  lemma ByIdExact(s: string, prefix: string, table: string)
    ensures ParseById(s, prefix) == Some(table) <==> Identifier(table) && s == prefix + (table + " WHERE id = ?")
  {
  }

  lemma CutNumbersText(limit: string, offset: string)
    requires ' ' !in limit
    ensures CutNumbers(NumbersText(limit, offset)) == Some((limit, offset))
  {
    FindAbsent(limit, " OFFSET", 0);
    CutBack(limit, " OFFSET", " " + offset);
  }

  lemma NumbersTextCut(r: string)
    requires CutNumbers(r).Some?
    ensures r == NumbersText(CutNumbers(r).value.0, CutNumbers(r).value.1)
  {
    CutPieces(StripPrefix(r, " ").value, " OFFSET");
  }

  lemma CutPageText(table: string, limit: string, offset: string)
    requires Identifier(table) && ' ' !in limit
    ensures CutPage(PageText(table, limit, offset)) == Some((table, limit, offset))
  {
    IdentifierFree(table, " LIMIT");
    CutBack(table, " LIMIT", NumbersText(limit, offset));
    CutNumbersText(limit, offset);
  }

  lemma PageTextCut(s: string)
    requires CutPage(s).Some?
    ensures var (table, limit, offset) := CutPage(s).value; s == PageText(table, limit, offset)
  {
    var r := StripPrefix(s, "SELECT * FROM ").value;
    CutPieces(r, " LIMIT");
    NumbersTextCut(Cut(r, " LIMIT").value.1);
  }

  lemma RenderedParsePage(s: string, q: Query)
    requires ParsePage(s) == Some(q)
    ensures q.Page? && q.Valid() && s == Rendered(q)
  {
    PageTextCut(s);
  }

  lemma ParsePageRendered(table: string, limit: nat, offset: nat)
    requires Identifier(table)
    ensures ParsePage(Rendered(Page(table, limit, offset))) == Some(Page(table, limit, offset))
  {
    CutPageText(table, Decimal(limit), Decimal(offset));
    ReadDecimalBack(limit);
    ReadDecimalBack(offset);
  }

  /** A listing text says exactly its table, limit and offset. */
  lemma PageExact(s: string, q: Query)
    ensures ParsePage(s) == Some(q) <==> q.Page? && q.Valid() && s == Rendered(q)
  {
    if ParsePage(s) == Some(q) {
      RenderedParsePage(s, q);
    }
    if q.Page? && q.Valid() && s == Rendered(q) {
      ParsePageRendered(q.table, q.limit, q.offset);
    }
  }

  // ----- placeholders

  function CountMarks(s: string): nat {
    if s == "" then 0 else (if s[0] == '?' then 1 else 0) + CountMarks(s[1..])
  }

  lemma {:induction false} CountConcat(a: string, b: string)
    ensures CountMarks(a + b) == CountMarks(a) + CountMarks(b)
  {
    if a == "" {
      assert a + b == b;
    } else {
      CountConcat(a[1..], b);
      assert (a + b)[1..] == a[1..] + b;
    }
  }

  lemma {:induction false} CountNone(s: string)
    requires '?' !in s
    ensures CountMarks(s) == 0
  {
    if s == "" {
    } else {
      CountNone(s[1..]);
    }
  }

  /** Joining parts with one mark each gives as many marks as parts. */
  lemma {:induction false} CountJoin(parts: seq<string>, each: nat)
    requires forall p :: p in parts ==> CountMarks(p) == each
    ensures CountMarks(Join(parts, ", ")) == each * |parts|
  {
    if |parts| == 1 {
      assert parts[0] in parts;
    } else if |parts| > 1 {
      assert parts[0] in parts;
      CountJoin(parts[1..], each);
      CountConcat(parts[0] + ", ", Join(parts[1..], ", "));
      CountConcat(parts[0], ", ");
      CountNone(", ");
      assert each * |parts| == each + each * (|parts| - 1);
    }
  }

  lemma CountTail(a: string, b: string, c: string)
    requires '?' !in a && '?' !in b
    ensures CountMarks(a + b + c) == CountMarks(c) && CountMarks(a + c) == CountMarks(c)
  {
    CountConcat(a + b, c);
    CountConcat(a, c);
    CountNone(a);
    CountNone(a + b);
  }

  lemma CountOne(a: string)
    requires '?' !in a
    ensures CountMarks(a + "?") == 1
  {
    CountConcat(a, "?");
    CountNone(a);
  }

  lemma CountClause(column: string)
    requires Identifier(column)
    ensures CountMarks(column + " = ?") == 1
  {
    assert column + " = ?" == column + " = " + "?";
    CountOne(column + " = ");
  }

  lemma CountById(text: string)
    ensures CountMarks(text + " WHERE id = ?") == CountMarks(text) + 1
  {
    assert text + " WHERE id = ?" == text + (" WHERE id = " + "?");
    CountOne(" WHERE id = ");
    CountConcat(text, " WHERE id = " + "?");
  }

  lemma CountInsert(table: string, columns: seq<string>, marks: nat)
    requires Insert(table, columns, marks).Valid()
    ensures CountMarks(Rendered(Insert(table, columns, marks))) == marks
  {
    var c, m := Join(columns, ", "), Join(Marks(marks), ", ");
    JoinChars(columns, ", ", '?');
    CountTail("INSERT INTO ", "", table + " (" + (c + ") VALUES (" + (m + ")")));
    CountTail(table, " (", c + ") VALUES (" + (m + ")"));
    CountTail(c, ") VALUES (", m + ")");
    CountConcat(m, ")");
    CountNone(")");
    CountJoin(Marks(marks), 1);
  }

  lemma CountUpdate(table: string, columns: seq<string>)
    requires Update(table, columns).Valid()
    ensures CountMarks(Rendered(Update(table, columns))) == |columns| + 1
  {
    var clauses := Join(Clauses(columns), ", ");
    CountTail("UPDATE ", "", table + " SET" + (" " + (clauses + " WHERE id = ?")));
    CountTail(table, " SET", " " + (clauses + " WHERE id = ?"));
    CountTail(" ", "", clauses + " WHERE id = ?");
    CountById(clauses);
    forall clause | clause in Clauses(columns) ensures CountMarks(clause) == 1 {
      var i :| 0 <= i < |columns| && clause == columns[i] + " = ?";
      assert Identifier(columns[i]);
      CountClause(columns[i]);
    }
    CountJoin(Clauses(columns), 1);
  }

  lemma CountTableById(verb: string, table: string)
    requires Identifier(table) && '?' !in verb
    ensures CountMarks(verb + (table + " WHERE id = ?")) == 1
  {
    CountTail(verb, "", table + " WHERE id = ?");
    CountById(table);
    CountNone(table);
  }

  lemma CountPage(table: string, limit: nat, offset: nat)
    requires Identifier(table)
    ensures CountMarks(Rendered(Page(table, limit, offset))) == 0
  {
    var numbers := NumbersText(Decimal(limit), Decimal(offset));
    CountTail("SELECT * FROM ", "", table + " LIMIT" + numbers);
    CountTail(table, " LIMIT", numbers);
    CountNone(numbers);
  }

  /** A valid query's text has as many placeholders as the query expects values. */
  lemma MarksAreArity(q: Query)
    requires q.Valid()
    ensures CountMarks(Rendered(q)) == q.Arity()
  {
    match q
    case Insert(table, columns, marks) => CountInsert(table, columns, marks);
    case Update(table, columns) => CountUpdate(table, columns);
    case Select(table) => CountTableById("SELECT * FROM ", table);
    case Delete(table) => CountTableById("DELETE FROM ", table);
    case Page(table, limit, offset) => CountPage(table, limit, offset);
  }

  /** No two valid queries share a text. */
  lemma RenderedInjective(q: Query, q': Query)
    requires q.Valid() && q'.Valid() && Rendered(q) == Rendered(q')
    ensures q == q'
  {
    var s := Rendered(q);
    InsertExact(s, q);
    InsertExact(s, q');
    UpdateExact(s, q);
    UpdateExact(s, q');
    PageExact(s, q);
    PageExact(s, q');
    ByIdExact(s, "SELECT * FROM ", q.table);
    ByIdExact(s, "SELECT * FROM ", q'.table);
    ByIdExact(s, "DELETE FROM ", q.table);
    ByIdExact(s, "DELETE FROM ", q'.table);
    MarksAreArity(q);
    MarksAreArity(q');
    assert s[0] == Initial(q) && s[0] == Initial(q');
  }

  function Initial(q: Query): char {
    match q
    case Insert(_, _, _) => 'I'
    case Update(_, _) => 'U'
    case Delete(_) => 'D'
    case _ => 'S'
  }

  // ----- building the statements

  /** The last path segment, if it is made of digits. */
  function ExtractId(path: string): Option<string> {
    var parts := Split(path, "/");
    var last := parts[|parts| - 1];
    if last != "" && forall c :: c in last ==> '0' <= c <= '9' then Some(last) else None
  }

  predicate KeysValid(members: seq<(string, Json)>) {
    forall i :: 0 <= i < |members| ==> Identifier(members[i].0)
  }

  function Keys(members: seq<(string, Json)>): seq<string> {
    seq(|members|, i requires 0 <= i < |members| => members[i].0)
  }

  function Values(members: seq<(string, Json)>): seq<Value> {
    seq(|members|, i requires 0 <= i < |members| => ToValue(members[i].1))
  }

  /** A paging parameter of the query string, or its default. */
  function PageParameter(queryString: string, key: string, default: nat): nat {
    match QueryString.FirstCarried(Split(queryString, "&"), key)
    case None => default
    case Some(s) =>
      match ParseUsize(s)
      case None => default
      case Some(n) => n
  }

  const MAX_PAGE := 10000

  /** The path ends in these digits, behind a slash or alone. */
  ghost predicate EndsInId(path: string, id: string) {
    id != "" && (forall i :: 0 <= i < |id| ==> id[i] in DIGITS) && (path == id || exists base :: path == base + "/" + id)
  }

  ghost predicate HasId(path: string) {
    exists id :: EndsInId(path, id)
  }

  lemma LastOfSplit(base: string, last: string)
    requires '/' !in last
    ensures var parts := Split(base + "/" + last, "/"); parts[|parts| - 1] == last
    ensures Split(last, "/") == [last]
  {
    FindChar(last, '/');
    SplitWhole(last, "/");
    SplitConcat(base, last, "/");
  }

  lemma {:induction false} JoinLast(parts: seq<string>)
    requires |parts| > 1
    ensures Join(parts, "/") == Join(parts[..|parts| - 1], "/") + "/" + parts[|parts| - 1]
  {
    var init := parts[..|parts| - 1];
    if |parts| == 2 {
      assert parts[1..] == [parts[1]];
    } else {
      JoinLast(parts[1..]);
      assert parts[1..][..|parts| - 2] == init[1..];
      assert Join(init, "/") == parts[0] + "/" + Join(init[1..], "/");
      Reassociate(parts[0] + "/", Join(init[1..], "/"), "/");
      Reassociate(parts[0] + "/", Join(init[1..], "/") + "/", parts[|parts| - 1]);
    }
  }

  lemma ExtractIdExact(path: string)
    ensures forall id :: ExtractId(path) == Some(id) <==> EndsInId(path, id)
    ensures ExtractId(path).Some? <==> HasId(path)
  {
    forall id ensures ExtractId(path) == Some(id) <==> EndsInId(path, id) {
      if EndsInId(path, id) {
        assert forall i :: 0 <= i < |id| ==> '0' <= id[i] <= '9';
        LastOfSplit("", id);
        if path != id {
          var base :| path == base + "/" + id;
          LastOfSplit(base, id);
        }
      }
      if ExtractId(path) == Some(id) {
        IdFound(path, id);
      }
    }
  }

  lemma IdFound(path: string, id: string)
    requires ExtractId(path) == Some(id)
    ensures EndsInId(path, id)
  {
    var parts := Split(path, "/");
    JoinSplit(path, "/");
    forall i | 0 <= i < |id| ensures id[i] in DIGITS {
      assert id[i] in id && DIGITS[(id[i] as int) - ('0' as int)] == id[i];
    }
    if |parts| > 1 {
      JoinLast(parts);
    }
  }

  /** The paging parameter n: the numeral of the first part that carries the key, and the default when
      no part does or what it carries is no number of 64 bits. */
  ghost predicate PageRead(queryString: string, key: string, default: nat, n: nat) {
    var parts := Split(queryString, "&");
    || ((forall i :: 0 <= i < |parts| ==> !QueryString.Carries(parts[i], key)) && n == default)
    || exists i :: QueryString.FirstCarrier(parts, key, i) && NumberRead(parts[i][|key| + 1..], default, n)
  }

  ghost predicate NumberRead(s: string, default: nat, n: nat) {
    (Numeral(s, n) && n < 0x1_0000_0000_0000_0000)
    || (n == default && forall m: nat :: m < 0x1_0000_0000_0000_0000 ==> !Numeral(s, m))
  }

  lemma PageParameterRead(queryString: string, key: string, default: nat)
    ensures PageRead(queryString, key, default, PageParameter(queryString, key, default))
  {
    var parts := Split(queryString, "&");
    QueryString.FirstCarriedNone(parts, key);
    if QueryString.FirstCarried(parts, key).Some? {
      var i := QueryString.CarrierFirst(parts, key);
      QueryString.FirstCarriedAt(parts, key, i);
      var s := parts[i][|key| + 1..];
      forall m: nat ensures ParseUsize(s) == Some(m) <==> Numeral(s, m) && m < 0x1_0000_0000_0000_0000 {
        ParseUsizeExact(s, m);
      }
      assert NumberRead(s, default, PageParameter(queryString, key, default));
    }
  }

  lemma ValuesBind(members: seq<(string, Json)>, more: seq<Value>)
    ensures BindsMembers(Values(members) + more, members)
  {
  }

  /** The columns are the keys of the members, in order. */
  predicate NamesMembers(columns: seq<string>, members: seq<(string, Json)>) {
    |columns| == |members| && forall i :: 0 <= i < |columns| ==> columns[i] == members[i].0
  }

  /** The query a request stands for, and the values it binds: for column i the i-th member's
      value, and the id last. Without an id a GET lists a page of at most 10000. */
  ghost predicate Means(stmt: Statement, verb: string, table: string, path: string, queryString: string, body: Body, query: Query) {
    && query.Valid() && query.table == table && stmt.sql == Rendered(query)
    && |stmt.values| == query.Arity() == CountMarks(stmt.sql)
    && match verb
       case "GET" =>
         if HasId(path) then query.Select? && exists id :: EndsInId(path, id) && stmt.values == [Text(id)]
         else
           && query.Page? && PageRead(queryString, "offset", 0, query.offset)
           && exists limit: nat :: PageRead(queryString, "limit", 100, limit) && query.limit == if limit < 10000 then limit else 10000
       case "DELETE" => query.Delete? && exists id :: EndsInId(path, id) && stmt.values == [Text(id)]
       case "POST" =>
         body.Object? && query.Insert? && NamesMembers(query.columns, body.members) && query.marks == |body.members|
         && |stmt.values| == |body.members| && BindsMembers(stmt.values, body.members)
       case _ =>
         (verb == "PUT" || verb == "PATCH") && body.Object? && query.Update? && NamesMembers(query.columns, body.members)
         && |stmt.values| == |body.members| + 1 && BindsMembers(stmt.values, body.members)
         && exists id :: EndsInId(path, id) && stmt.values[|body.members|] == Text(id)
  }

  /** What is computed means the request. */
  lemma ComputedMeans(stmt: Statement, verb: string, table: string, path: string, queryString: string, body: Body, query: Query)
    requires Computed(stmt, verb, table, path, queryString, body, query)
    ensures Means(stmt, verb, table, path, queryString, body, query)
  {
    ExtractIdExact(path);
    PageParameterRead(queryString, "offset", 0);
    PageParameterRead(queryString, "limit", 100);
    if body.Object? {
      ValuesBind(body.members, []);
      assert Values(body.members) + [] == Values(body.members);
      if ExtractId(path).Some? {
        ValuesBind(body.members, [Text(ExtractId(path).value)]);
      }
    }
  }

  predicate Computed(stmt: Statement, verb: string, table: string, path: string, queryString: string, body: Body, query: Query) {
    && query.Valid() && query.table == table && stmt.sql == Rendered(query)
    && |stmt.values| == query.Arity() == CountMarks(stmt.sql)
    && match verb
       case "GET" =>
         if ExtractId(path).Some? then query.Select? && stmt.values == [Text(ExtractId(path).value)]
         else query.Page? && query.limit <= MAX_PAGE && query.offset == PageParameter(queryString, "offset", 0)
              && (query.limit == PageParameter(queryString, "limit", 100) || query.limit == MAX_PAGE < PageParameter(queryString, "limit", 100))
       case "DELETE" => query.Delete? && ExtractId(path).Some? && stmt.values == [Text(ExtractId(path).value)]
       case "POST" =>
         body.Object? && query.Insert? && query.columns == Keys(body.members) && query.marks == |body.members|
         && stmt.values == Values(body.members)
       case _ =>
         (verb == "PUT" || verb == "PATCH") && body.Object? && ExtractId(path).Some?
         && query.Update? && query.columns == Keys(body.members)
         && stmt.values == Values(body.members) + [Text(ExtractId(path).value)]
  }

  /** The error names the first member whose key is no identifier. */
  predicate FirstBadKey(members: seq<(string, Json)>, error: SqlError) {
    exists i :: 0 <= i < |members| && !Identifier(members[i].0) && error == IdentifierError(members[i].0)
                && KeysValid(members[..i])
  }

  /** Why a request has no statement: the table name is looked at first, then the method, the id,
      the body and its keys. */
  ghost predicate Refused(table: string, verb: string, path: string, body: Body, error: SqlError) {
    if !Identifier(table) then error == IdentifierError(table)
    else if verb !in {"GET", "DELETE", "POST", "PUT", "PATCH"} then error == Unsupported
    else if verb in {"DELETE", "PUT", "PATCH"} && !HasId(path) then error == IdRequired
    else if verb !in {"POST", "PUT", "PATCH"} then false
    else
      match body
      case Malformed => error == BadJson
      case NotAnObject => error == ObjectRequired
      case Object(members) => if members == [] then error == EmptyBody else FirstBadKey(members, error)
  }

  /** The members of a usable body. */
  method Members(body: Body) returns (r: Result<seq<(string, Json)>, SqlError>)
    ensures r.Ok? <==> body.Object? && body.members != []
    ensures r.Ok? ==> r.value == body.members
    ensures body.Malformed? ==> r == Err(BadJson)
    ensures body.NotAnObject? ==> r == Err(ObjectRequired)
    ensures body.Object? && body.members == [] ==> r == Err(EmptyBody)
  {
    match body
    case Malformed => r := Err(BadJson);
    case NotAnObject => r := Err(ObjectRequired);
    case Object(members) => r := if members == [] then Err(EmptyBody) else Ok(members);
  }

  /** The insertion loop: keys, values and placeholders grow together. */
  method BuildInsert(table: string, members: seq<(string, Json)>) returns (r: Result<Statement, SqlError>)
    requires Identifier(table) && members != []
    ensures r.Ok? <==> KeysValid(members)
    ensures r.Ok? ==> r.value == Statement(Rendered(Insert(table, Keys(members), |members|)), Values(members))
    ensures r.Ok? ==> BindsMembers(r.value.values, members)
    ensures r.Err? ==> FirstBadKey(members, r.error)
  {
    var keys: seq<string>, values: seq<Value>, placeholders: seq<string> := [], [], [];
    for i := 0 to |members|
      invariant keys == Keys(members[..i]) && values == Values(members[..i]) && placeholders == Marks(i)
      invariant KeysValid(members[..i])
    {
      var key := ValidateIdentifier(members[i].0);
      if key.Err? {
        return Err(key.error);
      }
      assert members[..i + 1] == members[..i] + [members[i]];
      keys := keys + [key.value];
      values := values + [ToValue(members[i].1)];
      placeholders := placeholders + ["?"];
    }
    assert members[..|members|] == members;
    ValuesBind(members, []);
    assert values + [] == values;
    r := Ok(Statement(InsertText(table, Join(keys, ", "), Join(placeholders, ", ")), values));
  }

  /** The update loop; the id is bound last. */
  method BuildUpdate(table: string, id: string, members: seq<(string, Json)>) returns (r: Result<Statement, SqlError>)
    requires Identifier(table) && members != []
    ensures r.Ok? <==> KeysValid(members)
    ensures r.Ok? ==> r.value == Statement(Rendered(Update(table, Keys(members))), Values(members) + [Text(id)])
    ensures r.Ok? ==> BindsMembers(r.value.values, members)
    ensures r.Err? ==> FirstBadKey(members, r.error)
  {
    var setClauses: seq<string>, values: seq<Value> := [], [];
    for i := 0 to |members|
      invariant setClauses == Clauses(Keys(members[..i])) && values == Values(members[..i])
      invariant KeysValid(members[..i])
    {
      var key := ValidateIdentifier(members[i].0);
      if key.Err? {
        return Err(key.error);
      }
      assert members[..i + 1] == members[..i] + [members[i]];
      setClauses := setClauses + [key.value + " = ?"];
      values := values + [ToValue(members[i].1)];
    }
    assert members[..|members|] == members;
    ValuesBind(members, [Text(id)]);
    values := values + [Text(id)];
    r := Ok(Statement(UpdateText(table, Join(setClauses, ", ")), values));
  }

  /** The statement of one request: what it says, or why there is none. */
  method BuildStatement(table: string, verb: string, path: string, queryString: string, body: Body)
    returns (r: Result<Statement, SqlError>, ghost query: Query)
    ensures r.Ok? ==> Means(r.value, verb, table, path, queryString, body, query)
    ensures r.Err? ==> Refused(table, verb, path, body, r.error)
    ensures r.Ok? <==>
            && Identifier(table) && verb in {"GET", "DELETE", "POST", "PUT", "PATCH"}
            && (verb in {"DELETE", "PUT", "PATCH"} ==> HasId(path))
            && (verb in {"POST", "PUT", "PATCH"} ==> body.Object? && body.members != [] && KeysValid(body.members))
  {
    query := Select(table);
    ExtractIdExact(path);
    var name := ValidateIdentifier(table);
    if name.Err? {
      return Err(name.error), query;
    }
    var id := ExtractId(path);
    match verb {
      case "GET" =>
        if id.Some? {
          r := Ok(Statement("SELECT * FROM " + (table + " WHERE id = ?"), [Text(id.value)]));
        } else {
          var limit, offset := PageParameter(queryString, "limit", 100), PageParameter(queryString, "offset", 0);
          var safeLimit := if limit < MAX_PAGE then limit else MAX_PAGE;
          query := Page(table, safeLimit, offset);
          r := Ok(Statement(PageText(table, Decimal(safeLimit), Decimal(offset)), []));
        }
      case "DELETE" =>
        if id == None {
          return Err(IdRequired), query;
        }
        query := Delete(table);
        r := Ok(Statement("DELETE FROM " + (table + " WHERE id = ?"), [Text(id.value)]));
      case "POST" =>
        var members := Members(body);
        if members.Err? {
          return Err(members.error), query;
        }
        query := Insert(table, Keys(members.value), |members.value|);
        r := BuildInsert(table, members.value);
      case _ =>
        if verb != "PUT" && verb != "PATCH" {
          return Err(Unsupported), query;
        }
        if id == None {
          return Err(IdRequired), query;
        }
        var members := Members(body);
        if members.Err? {
          return Err(members.error), query;
        }
        query := Update(table, Keys(members.value));
        r := BuildUpdate(table, id.value, members.value);
    }
    if r.Ok? {
      MarksAreArity(query);
      ComputedMeans(r.value, verb, table, path, queryString, body, query);
    }
  }
}
