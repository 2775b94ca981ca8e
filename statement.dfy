/**
 * The statement adapter over an ODBC result.  It keeps an ordered table
 * of named parameter slots taken from the SQL text, hands the native
 * layer the SQL with every `:name` placeholder replaced by `?`, validates
 * fetch modes, folds field names to lowercase on request and splices the
 * rows of nested cursors into fetchAll's result.
 *
 * The native layer is an oracle: a prepare error, the outcome of an
 * execute, and the result set as a sequence of fetch steps.
 */
module CacheStatement {
  import opened Php
  import opened OrderedTable
  import opened Exceptions

  // ---------------------------------------------------------------------
  // Fetch modes

  const FetchAssoc := 2
  const FetchBoth := 4
  const FetchObj := 5

  predicate SupportedMode(mode: int) {
    mode == FetchAssoc || mode == FetchBoth || mode == FetchObj
  }

  const UnsupportedModeMessage := "Requested fetch mode is not yet supported."

  /** The error setFetchMode raises: the fixed message, code 0. */
  function UnsupportedMode(): Error {
    CacheException(UnsupportedModeMessage, 0)
  }

  /**
   * It is what `new CacheException($message)` builds: the message holds
   * no double quote and no newline, so normalisation keeps it as written.
   */
  lemma UnsupportedModeIsCacheException()
    ensures UnsupportedMode() == NewCacheException(UnsupportedModeMessage, 0)
  {
    UnsupportedModeMessageClean();
    NewCacheExceptionNormalizes(UnsupportedModeMessage, 0);
  }

  lemma UnsupportedModeMessageClean()
    ensures Normalize(UnsupportedModeMessage) == UnsupportedModeMessage
  {
    UnsupportedModeMessagePlain();
    NormalizeClean(UnsupportedModeMessage);
  }

  /** The message is printable ASCII without a double quote. */
  lemma UnsupportedModeMessagePlain()
    ensures forall i :: 0 <= i < |UnsupportedModeMessage| ==>
      ' ' <= UnsupportedModeMessage[i] <= '~' && UnsupportedModeMessage[i] != '"'
  {
  }

  // ---------------------------------------------------------------------
  // The native result set

  /**
   * One call of the native fetch: a row, given as the driver's list of
   * column names and cells, or a failure with the driver's error.
   */
  datatype Step = Row(columns: seq<(string, Cell)>) | Fault(error: NativeError)

  /** A field value: a scalar, or the handle of a nested cursor that yields its own steps. */
  datatype Cell = Val(value: Value) | Cursor(steps: seq<Step>)

  /** What a fetch returns: false, an associative array, or an object. */
  datatype Fetched = NoRow | ArrayRow(fields: Table<string, Cell>) | ObjectRow(fields: Table<string, Cell>)

  /** The connection attributes fetch consults. */
  datatype Attributes = Attributes(caseLower: bool, nullToString: bool, nullEmptyString: bool)

  /** Parameter keys: names from the SQL text, or the positions the framework binds. */
  datatype Key = Named(name: string) | Position(n: int)

  // ---------------------------------------------------------------------
  // Parameter slots

  predicate IsPlaceholderToken(token: string) {
    |token| > 0 && token[0] == ':'
  }

  /** The slot assignments parameters() makes, one per `:`-token, in order. */
  function Slots(tokens: seq<string>): (ps: Table<Key, Value>)
    ensures forall p :: p in ps ==> p.1 == Null && p.0.Named? && IsPlaceholderToken(p.0.name)
  {
    if tokens == [] then []
    else
      var front := Slots(tokens[..|tokens| - 1]);
      var last := tokens[|tokens| - 1];
      if IsPlaceholderToken(last) then front + [(Named(last), Null)] else front
  }

  /** One more token adds its slot when it starts with a colon. */
  lemma SlotsSnoc(tokens: seq<string>, token: string)
    ensures Slots(tokens + [token])
         == if IsPlaceholderToken(token) then Slots(tokens) + [(Named(token), Null)] else Slots(tokens)
  {
    assert (tokens + [token])[..|tokens|] == tokens;
  }

  /** The slot table of a statement's text: the `:`-tokens between single spaces. */
  function ParameterSlots(sql: string): Table<Key, Value> {
    PutAll([], Slots(Explode(' ', sql)))
  }

  /**
   * One slot per distinct `:`-token, ordered by first appearance, every
   * one initialised to null.
   */
  lemma ParameterSlotsShape(sql: string)
    ensures FirstAppearanceOrder(Slots(Explode(' ', sql)), ParameterSlots(sql))
    ensures forall p :: p in ParameterSlots(sql) ==> p.1 == Null && p.0.Named? && IsPlaceholderToken(p.0.name)
  {
    var ps := Slots(Explode(' ', sql));
    PutAllFirstAppearance(ps);
    forall p | p in ParameterSlots(sql)
      ensures p.1 == Null && p.0.Named? && IsPlaceholderToken(p.0.name)
    {
      PutAllPairs([], ps, p);
    }
  }

  /** A token is a slot exactly when it starts with a colon. */
  lemma {:induction false} SlotsKeys(tokens: seq<string>, name: string)
    ensures Named(name) in Keys(Slots(tokens)) <==> name in tokens && IsPlaceholderToken(name)
  {
    if tokens != [] {
      var front := tokens[..|tokens| - 1];
      SlotsKeys(front, name);
      assert tokens == front + [tokens[|tokens| - 1]];
      var fs := Slots(front);
      if IsPlaceholderToken(tokens[|tokens| - 1]) {
        assert Keys(Slots(tokens)) == Keys(fs) + [Named(tokens[|tokens| - 1])];
      }
    }
  }

  // ---------------------------------------------------------------------
  // The placeholder rewrite `(?<=\s|^):[^\s:]++` -> `?`

  /** The length of the placeholder name that starts s: characters that are neither white space nor ':'. */
  function NameRun(s: string): (n: nat)
    ensures n <= |s|
    ensures forall k :: 0 <= k < n ==> !IsSpace(s[k]) && s[k] != ':'
    ensures n < |s| ==> IsSpace(s[n]) || s[n] == ':'
  {
    if s == [] || IsSpace(s[0]) || s[0] == ':' then 0 else 1 + NameRun(s[1..])
  }

  /** Whether a placeholder starts s; `boundary` says s follows white space or starts the text. */
  predicate PlaceholderAt(s: string, boundary: bool) {
    boundary && |s| > 0 && s[0] == ':' && NameRun(s[1..]) > 0
  }

  function RewriteFrom(s: string, boundary: bool): string
    decreases |s|
  {
    if s == [] then []
    else if PlaceholderAt(s, boundary) then "?" + RewriteFrom(s[1 + NameRun(s[1..])..], false)
    else [s[0]] + RewriteFrom(s[1..], IsSpace(s[0]))
  }

  /**
   * The text handed to the native prepare.  For a text without `?`,
   * putting the placeholders back at the markers, in order, gives the
   * original text: the rewrite keeps everything outside the placeholders.
   */
  function Rewrite(sql: string): (r: string)
    ensures '?' !in sql ==> Substitute(r, PlaceholdersFrom(sql, true)) == sql
  {
    RewriteRoundTrip(sql, true);
    RewriteFrom(sql, true)
  }

  /** Puts the names back, in order, at the `?` markers of t. */
  function Substitute(t: string, names: seq<string>): string
    decreases |t|
  {
    if t == [] then []
    else if t[0] == '?' && names != [] then names[0] + Substitute(t[1..], names[1..])
    else [t[0]] + Substitute(t[1..], names)
  }

  /** The rewrite forgets only the names: substituting them back restores the text. */
  lemma {:induction false} RewriteRoundTrip(s: string, boundary: bool)
    ensures '?' !in s ==> Substitute(RewriteFrom(s, boundary), PlaceholdersFrom(s, boundary)) == s
    decreases |s|
  {
    if s != [] && '?' !in s {
      if PlaceholderAt(s, boundary) {
        var rest := s[1 + NameRun(s[1..])..];
        assert forall c :: c in rest ==> c in s;
        RewriteRoundTrip(rest, false);
        RoundTripPlaceholder(s, boundary);
      } else {
        assert forall c :: c in s[1..] ==> c in s;
        RewriteRoundTrip(s[1..], IsSpace(s[0]));
        RoundTripKept(s, boundary);
      }
    }
  }

  /** A turn of the round trip over a placeholder: its name goes back in place of the `?`. */
  lemma RoundTripPlaceholder(s: string, boundary: bool)
    requires s != [] && PlaceholderAt(s, boundary)
    requires var rest := s[1 + NameRun(s[1..])..];
      Substitute(RewriteFrom(rest, false), PlaceholdersFrom(rest, false)) == rest
    ensures Substitute(RewriteFrom(s, boundary), PlaceholdersFrom(s, boundary)) == s
  {
    var n := NameRun(s[1..]);
    var rest := s[1 + n..];
    var out, ps := RewriteFrom(s, boundary), PlaceholdersFrom(s, boundary);
    assert out == "?" + RewriteFrom(rest, false);
    assert out[1..] == RewriteFrom(rest, false);
    assert ps == [s[..1 + n]] + PlaceholdersFrom(rest, false);
    assert ps[1..] == PlaceholdersFrom(rest, false);
    SplitAt(s, 1 + n);
  }

  lemma SplitAt<T>(s: seq<T>, i: int)
    requires 0 <= i <= |s|
    ensures s[..i] + s[i..] == s
  {
  }

  /** A turn of the round trip over a character outside placeholders, which stays as it is. */
  lemma RoundTripKept(s: string, boundary: bool)
    requires s != [] && s[0] != '?' && !PlaceholderAt(s, boundary)
    requires Substitute(RewriteFrom(s[1..], IsSpace(s[0])), PlaceholdersFrom(s[1..], IsSpace(s[0]))) == s[1..]
    ensures Substitute(RewriteFrom(s, boundary), PlaceholdersFrom(s, boundary)) == s
  {
    var out := RewriteFrom(s, boundary);
    assert out == [s[0]] + RewriteFrom(s[1..], IsSpace(s[0]));
    assert out[1..] == RewriteFrom(s[1..], IsSpace(s[0]));
    assert [s[0]] + s[1..] == s;
  }

  /** A text without placeholders is handed over as it is. */
  lemma {:induction false} RewriteNoPlaceholders(s: string, boundary: bool)
    requires PlaceholdersFrom(s, boundary) == []
    ensures RewriteFrom(s, boundary) == s
    decreases |s|
  {
    if s != [] {
      assert !PlaceholderAt(s, boundary);
      RewriteNoPlaceholders(s[1..], IsSpace(s[0]));
      assert [s[0]] + s[1..] == s;
    }
  }

  /** The placeholders the rewrite replaces, in order of occurrence. */
  function PlaceholdersFrom(s: string, boundary: bool): seq<string>
    decreases |s|
  {
    if s == [] then []
    else if PlaceholderAt(s, boundary) then
      var n := NameRun(s[1..]);
      [s[..1 + n]] + PlaceholdersFrom(s[1 + n..], false)
    else PlaceholdersFrom(s[1..], IsSpace(s[0]))
  }

  /** Each placeholder becomes exactly one `?` and nothing else adds one. */
  lemma {:induction false} RewriteMarkers(s: string, boundary: bool)
    requires '?' !in s
    ensures multiset(RewriteFrom(s, boundary))['?'] == |PlaceholdersFrom(s, boundary)|
  {
    if s != [] {
      if PlaceholderAt(s, boundary) {
        var rest := s[1 + NameRun(s[1..])..];
        assert forall c :: c in rest ==> c in s;
        RewriteMarkers(rest, false);
        assert multiset("?" + RewriteFrom(rest, false)) == multiset("?") + multiset(RewriteFrom(rest, false));
      } else {
        assert s[0] != '?' && forall c :: c in s[1..] ==> c in s;
        RewriteMarkers(s[1..], IsSpace(s[0]));
        assert multiset([s[0]] + RewriteFrom(s[1..], IsSpace(s[0])))
            == multiset([s[0]]) + multiset(RewriteFrom(s[1..], IsSpace(s[0])));
      }
    }
  }

  /** The first character of the rewritten text. */
  lemma RewriteHead(s: string, boundary: bool)
    requires s != []
    ensures RewriteFrom(s, boundary) != []
    ensures PlaceholderAt(s, boundary) ==> RewriteFrom(s, boundary)[0] == '?'
    ensures !PlaceholderAt(s, boundary) ==> RewriteFrom(s, boundary)[0] == s[0]
  {
  }

  /** No placeholder survives the rewrite: rewriting again changes nothing. */
  lemma {:induction false} RewriteIdempotent(s: string, boundary: bool)
    ensures RewriteFrom(RewriteFrom(s, boundary), boundary) == RewriteFrom(s, boundary)
    decreases |s|
  {
    if s != [] {
      var out := RewriteFrom(s, boundary);
      if PlaceholderAt(s, boundary) {
        var rest := s[1 + NameRun(s[1..])..];
        var tail := RewriteFrom(rest, false);
        assert out == "?" + tail;
        assert !PlaceholderAt(out, boundary);
        assert out[1..] == tail;
        RewriteIdempotent(rest, false);
      } else {
        var tail := RewriteFrom(s[1..], IsSpace(s[0]));
        assert out == [s[0]] + tail;
        assert out[1..] == tail;
        RewriteIdempotent(s[1..], IsSpace(s[0]));
        if boundary && s[0] == ':' {
          // no name follows the colon, and the rewrite keeps it that way
          if tail != [] {
            RewriteHead(s[1..], IsSpace(s[0]));
            assert !PlaceholderAt(s[1..], false);
            assert tail[0] == s[1];
            assert NameRun(s[1..]) == 0;
          }
          assert NameRun(out[1..]) == 0;
        }
        assert !PlaceholderAt(out, boundary);
      }
    }
  }

  lemma RepeatedNameTokens()
    ensures Explode(' ', ":a = :a") == [":a", "=", ":a"]
  {
    ExplodeNoSep(' ', ":a");
    ExplodeCons(' ', "=", ":a");
    assert ":a = :a" == ":a" + [' '] + ("=" + [' '] + ":a");
    ExplodeCons(' ', ":a", "=" + [' '] + ":a");
  }

  lemma RepeatedNameSlots()
    ensures Slots([":a", "=", ":a"]) == [(Named(":a"), Null), (Named(":a"), Null)]
  {
    var tokens := [":a", "=", ":a"];
    assert tokens[..2] == [":a", "="] && tokens[..2][..1] == [":a"];
    assert [":a"][..0] == [];
    assert Slots([":a"]) == [(Named(":a"), Null)];
    assert Slots([":a", "="]) == [(Named(":a"), Null)];
  }

  lemma RewriteLastName()
    ensures RewriteFrom(":a", true) == "?"
  {
    assert ":a"[1..] == "a" && ":a"[2..] == [];
    assert NameRun("a") == 1;
  }

  lemma RewriteSpaceName()
    ensures RewriteFrom(" :a", false) == " ?"
  {
    assert " :a"[1..] == ":a";
    RewriteLastName();
  }

  lemma RewriteEqualsName()
    ensures RewriteFrom("= :a", true) == "= ?"
  {
    assert "= :a"[1..] == " :a";
    RewriteSpaceName();
  }

  lemma RewriteSpaceEqualsName()
    ensures RewriteFrom(" = :a", false) == " = ?"
  {
    assert " = :a"[1..] == "= :a";
    RewriteEqualsName();
  }

  lemma RepeatedNameRewrite()
    ensures Rewrite(":a = :a") == "? = ?"
  {
    RepeatedNameRewriteFrom();
  }

  lemma RepeatedNameRewriteFrom()
    ensures RewriteFrom(":a = :a", true) == "? = ?"
  {
    var s := ":a = :a";
    assert "a = :a"[1..] == " = :a";
    assert NameRun("a = :a") == 1;
    assert s[1..] == "a = :a";
    assert s[2..] == " = :a";
    assert RewriteFrom(s, true) == "?" + RewriteFrom(" = :a", false);
    RewriteSpaceEqualsName();
  }

  /** A repeated name: two markers for the native layer, one slot in the table. */
  lemma RepeatedNameExample()
    ensures Rewrite(":a = :a") == "? = ?"
    ensures ParameterSlots(":a = :a") == [(Named(":a"), Null)]
  {
    RepeatedNameTokens();
    RepeatedNameSlots();
    RepeatedNameRewrite();
    RepeatedNamePutAll();
  }

  lemma RepeatedNamePutAll()
    ensures PutAll([], [(Named(":a"), Null), (Named(":a"), Null)]) == [(Named(":a"), Null)]
  {
    var slot: (Key, Value) := (Named(":a"), Null);
    assert [slot, slot][..1] == [slot] && [slot][..0] == [];
    assert PutAll([], [slot]) == [slot];
    assert Keys([slot]) == [slot.0];
    assert Put([slot], slot.0, slot.1) == [slot][0 := slot];
  }

  // ---------------------------------------------------------------------
  // Rows

  /** The PHP array the native fetch builds: a later column of the same name overwrites. */
  function NativeArray(columns: seq<(string, Cell)>): Table<string, Cell> {
    PutAll([], columns)
  }

  function LowerKeys(t: Table<string, Cell>): (u: Table<string, Cell>)
    ensures |u| == |t|
    ensures forall i :: 0 <= i < |t| ==> u[i] == (Lower(t[i].0), t[i].1)
  {
    seq(|t|, i requires 0 <= i < |t| => (Lower(t[i].0), t[i].1))
  }

  /** `array_change_key_case($a)`: keys lowercased; on a collision the later value wins in the earlier slot. */
  function ChangeKeyCase(t: Table<string, Cell>): Table<string, Cell> {
    PutAll([], LowerKeys(t))
  }

  /**
   * The folded array holds one slot per distinct lowercased key, in the
   * order of first appearance, and every key is lowercase.
   */
  lemma ChangeKeyCaseKeys(t: Table<string, Cell>)
    ensures DistinctKeys(ChangeKeyCase(t))
    ensures forall k :: k in Keys(ChangeKeyCase(t)) <==> exists i :: 0 <= i < |t| && k == Lower(t[i].0)
    ensures forall k :: k in Keys(ChangeKeyCase(t)) ==> IsLower(k)
  {
    var lowered := LowerKeys(t);
    PutAllFirstAppearance(lowered);
    forall k ensures k in Keys(lowered) <==> exists i :: 0 <= i < |t| && k == Lower(t[i].0) {
      if k in Keys(lowered) {
        var i :| 0 <= i < |lowered| && Keys(lowered)[i] == k;
        assert k == Lower(t[i].0);
      }
      if exists i :: 0 <= i < |t| && k == Lower(t[i].0) {
        var i :| 0 <= i < |t| && k == Lower(t[i].0);
        assert Keys(lowered)[i] == k;
      }
    }
    forall k | k in Keys(ChangeKeyCase(t)) ensures IsLower(k) {
      var i :| 0 <= i < |lowered| && Keys(lowered)[i] == k;
      LowerIsLower(t[i].0);
    }
  }

  /** The fields a fetch returns for one native row. */
  function Shape(attrs: Attributes, columns: seq<(string, Cell)>): Table<string, Cell> {
    var fields := NativeArray(columns);
    if attrs.caseLower then ChangeKeyCase(fields) else fields
  }

  /** The fields have distinct keys, and there are fields exactly when there are columns. */
  lemma ShapeDistinct(attrs: Attributes, columns: seq<(string, Cell)>)
    ensures DistinctKeys(Shape(attrs, columns))
    ensures Shape(attrs, columns) == [] <==> columns == []
  {
    var fields := NativeArray(columns);
    PutAllFirstAppearance(columns);
    assert columns != [] ==> columns[0].0 in Keys(columns);
    assert fields == [] <==> columns == [] by {
      if columns != [] {
        assert columns[0].0 in Keys(fields);
      }
    }
    if attrs.caseLower {
      PutAllFirstAppearance(LowerKeys(fields));
      if fields != [] {
        assert LowerKeys(fields)[0].0 in Keys(LowerKeys(fields));
        assert LowerKeys(fields)[0].0 in Keys(ChangeKeyCase(fields));
      }
    }
  }

  /** With CASE_LOWER every returned key is lowercase. */
  lemma ShapeLowercase(attrs: Attributes, columns: seq<(string, Cell)>)
    requires attrs.caseLower
    ensures forall k :: k in Keys(Shape(attrs, columns)) ==> IsLower(k)
  {
    var lowered := LowerKeys(NativeArray(columns));
    PutAllFirstAppearance(lowered);
    forall k | k in Keys(Shape(attrs, columns)) ensures IsLower(k) {
      assert k in Keys(lowered);
      var i :| 0 <= i < |lowered| && Keys(lowered)[i] == k;
      LowerIsLower(NativeArray(columns)[i].0);
    }
  }

  /** Folding keys that are already lowercase and distinct changes nothing. */
  lemma ChangeKeyCaseOfLower(t: Table<string, Cell>)
    requires DistinctKeys(t)
    requires forall k :: k in Keys(t) ==> IsLower(k)
    ensures ChangeKeyCase(t) == t
  {
    forall i | 0 <= i < |t| ensures LowerKeys(t)[i] == t[i] {
      assert t[i].0 in Keys(t);
      LowerOfLower(t[i].0);
    }
    assert LowerKeys(t) == t;
    assert [] + t == t;
    PutAllFresh([], t);
  }

  /** Case folding is idempotent. */
  lemma ChangeKeyCaseIdempotent(attrs: Attributes, columns: seq<(string, Cell)>)
    requires attrs.caseLower
    ensures ChangeKeyCase(Shape(attrs, columns)) == Shape(attrs, columns)
  {
    ShapeDistinct(attrs, columns);
    ShapeLowercase(attrs, columns);
    ChangeKeyCaseOfLower(Shape(attrs, columns));
  }

  // ---------------------------------------------------------------------
  // fetch

  /**
   * One fetch in the given mode over the remaining native steps: the
   * value fetch returns (or raises) and the steps left afterwards.
   */
  function FetchRow(mode: int, attrs: Attributes, cursor: seq<Step>): (out: (Result<Fetched>, seq<Step>))
    ensures !SupportedMode(mode) ==> out == (Ok(NoRow), cursor)
    ensures SupportedMode(mode) && cursor == [] ==> out == (Ok(NoRow), [])
    ensures SupportedMode(mode) && cursor != [] ==> out.1 == cursor[1..] && out.0 != Ok(NoRow)
    ensures SupportedMode(mode) && cursor != [] && cursor[0].Fault? ==> out.0 == Err(FromNative(cursor[0].error))
    ensures SupportedMode(mode) && cursor != [] && cursor[0].Row? ==>
      out.0 == Ok(if mode == FetchObj then ObjectRow(Shape(attrs, cursor[0].columns))
                  else ArrayRow(Shape(attrs, cursor[0].columns)))
  {
    if mode == FetchAssoc || mode == FetchBoth || mode == FetchObj then
      if cursor == [] then (Ok(NoRow), [])
      else
        match cursor[0]
        case Fault(e) => (Err(FromNative(e)), cursor[1..])
        case Row(columns) =>
          var fields := Shape(attrs, columns);
          (Ok(if mode == FetchObj then ObjectRow(fields) else ArrayRow(fields)), cursor[1..])
    else (Ok(NoRow), cursor)
  }

  /** BOTH behaves exactly like ASSOC. */
  lemma BothIsAssoc(attrs: Attributes, cursor: seq<Step>)
    ensures FetchRow(FetchBoth, attrs, cursor) == FetchRow(FetchAssoc, attrs, cursor)
  {
  }

  /** An object carries exactly the fields the associative array would: the raw fetched values. */
  lemma ObjectIsArray(attrs: Attributes, cursor: seq<Step>)
    ensures var (o, orest) := FetchRow(FetchObj, attrs, cursor);
      var (a, arest) := FetchRow(FetchAssoc, attrs, cursor);
      orest == arest && o.Ok? == a.Ok?
      && (o.Ok? && o.value.ObjectRow? ==> a.value == ArrayRow(o.value.fields))
  {
  }

  // ---------------------------------------------------------------------
  // fetchAll

  /** The loop conditions `while ($row = ...)`: false and an empty array stop it. */
  predicate Continues(row: Fetched) {
    match row
    case NoRow => false
    case ArrayRow(fields) => fields != []
    case ObjectRow(_) => true
  }

  /** The nested cursor a row hands over in its first field, if any. */
  function NestedCursor(row: Fetched): Option<seq<Step>> {
    if (row.ArrayRow? || row.ObjectRow?) && row.fields != [] && row.fields[0].1.Cursor? then
      Some(row.fields[0].1.steps)
    else None
  }

  /** What a fetching loop collected, the error that ended it if any, and the steps left. */
  datatype Outcome = Outcome(rows: seq<Fetched>, error: Option<Error>, rest: seq<Step>)

  /** The outcome of a loop that had already collected `prefix`. */
  function Prepend(prefix: seq<Fetched>, o: Outcome): Outcome {
    Outcome(prefix + o.rows, o.error, o.rest)
  }

  /** `while ($rs = $stmt->fetch()) $results[] = $rs;` over a nested cursor. */
  function Drain(mode: int, attrs: Attributes, cursor: seq<Step>): (o: Outcome)
    requires SupportedMode(mode)
    ensures |o.rows| <= |cursor|
    ensures forall r :: r in o.rows ==> Continues(r)
    decreases |cursor|
  {
    var (fetched, rest) := FetchRow(mode, attrs, cursor);
    if fetched.Err? then Outcome([], Some(fetched.error), rest)
    else if !Continues(fetched.value) then Outcome([], None, rest)
    else Prepend([fetched.value], Drain(mode, attrs, rest))
  }

  /** What one fetched row contributes to fetchAll: the nested cursor's rows, or the row itself. */
  function Expand(mode: int, attrs: Attributes, row: Fetched): (e: (seq<Fetched>, Option<Error>))
    requires SupportedMode(mode)
    ensures NestedCursor(row).None? ==> e == ([row], None)
  {
    match NestedCursor(row)
    case Some(steps) =>
      var nested := Drain(mode, attrs, steps);
      (nested.rows, nested.error)
    case None => ([row], None)
  }

  /**
   * fetchAll's outer loop: rows in order, a row opening a nested cursor
   * replaced by that cursor's rows.
   */
  function Collect(mode: int, attrs: Attributes, cursor: seq<Step>): Outcome
    requires SupportedMode(mode)
    decreases |cursor|
  {
    var (fetched, rest) := FetchRow(mode, attrs, cursor);
    if fetched.Err? then Outcome([], Some(fetched.error), rest)
    else if !Continues(fetched.value) then Outcome([], None, rest)
    else
      var (rows, error) := Expand(mode, attrs, fetched.value);
      if error.Some? then Outcome(rows, error, rest)
      else Prepend(rows, Collect(mode, attrs, rest))
  }

  /** Every row fetchAll collects is one the loop condition accepts. */
  lemma {:induction false} CollectRowsContinue(mode: int, attrs: Attributes, cursor: seq<Step>)
    requires SupportedMode(mode)
    ensures forall r :: r in Collect(mode, attrs, cursor).rows ==> Continues(r)
    decreases |cursor|
  {
    CollectTurn(mode, attrs, cursor);
    var (fetched, rest) := FetchRow(mode, attrs, cursor);
    if fetched.Ok? && Continues(fetched.value) {
      var e := Expand(mode, attrs, fetched.value);
      ExpandContinues(mode, attrs, fetched.value);
      if e.1.None? {
        assert |rest| < |cursor|;
        CollectRowsContinue(mode, attrs, rest);
      }
    }
  }

  /** The steps fetchAll leaves unread are a suffix of the cursor. */
  lemma {:induction false} CollectRestSuffix(mode: int, attrs: Attributes, cursor: seq<Step>)
    requires SupportedMode(mode)
    ensures IsSuffix(Collect(mode, attrs, cursor).rest, cursor)
    decreases |cursor|
  {
    if cursor == [] {
      CollectTurn(mode, attrs, cursor);
    } else {
      CollectRestStep(mode, attrs, cursor);
      var t := Collect(mode, attrs, cursor).rest;
      TailIsSuffix(cursor);
      if t != cursor[1..] {
        CollectRestSuffix(mode, attrs, cursor[1..]);
        SuffixOfTail(cursor, cursor[1..], t);
      }
    }
  }

  /** After one turn the outer loop has either stopped on the rest of the cursor or goes on over it. */
  lemma CollectRestStep(mode: int, attrs: Attributes, cursor: seq<Step>)
    requires SupportedMode(mode) && cursor != []
    ensures var t := Collect(mode, attrs, cursor).rest;
      t == cursor[1..] || t == Collect(mode, attrs, cursor[1..]).rest
  {
    CollectTurn(mode, attrs, cursor);
  }

  /** A row the loop accepts contributes only rows the loop accepts. */
  lemma ExpandContinues(mode: int, attrs: Attributes, row: Fetched)
    requires SupportedMode(mode) && Continues(row)
    ensures forall r :: r in Expand(mode, attrs, row).0 ==> Continues(r)
  {
  }

  /** t is what is left of s after some steps were taken from its front. */
  ghost predicate IsSuffix<T>(t: seq<T>, s: seq<T>) {
    |t| <= |s| && t == s[|s| - |t|..]
  }

  lemma TailIsSuffix<T>(s: seq<T>)
    requires s != []
    ensures IsSuffix(s[1..], s)
  {
  }

  /** A suffix of a sequence's tail is a suffix of the sequence. */
  lemma SuffixOfTail<T>(s: seq<T>, tail: seq<T>, t: seq<T>)
    requires s != [] && tail == s[1..] && IsSuffix(t, tail)
    ensures IsSuffix(t, s)
  {
  }

  /** What the model says in place of PHP's TypeError message, whose text is not modelled. */
  const ObjectExpected := "object expected"

  /**
   * fetchAll's outer loop as PHP 8 runs it: `get_mangled_object_vars`
   * accepts only objects, so the first array row that keeps the loop going
   * raises a TypeError before the cursor test; object rows go through as
   * in Collect.
   */
  function CollectAsWritten(mode: int, attrs: Attributes, cursor: seq<Step>): (o: Outcome)
    requires SupportedMode(mode)
    ensures mode != FetchObj ==> o.rows == []
    decreases |cursor|
  {
    var (fetched, rest) := FetchRow(mode, attrs, cursor);
    if fetched.Err? then Outcome([], Some(fetched.error), rest)
    else if !Continues(fetched.value) then Outcome([], None, rest)
    else if fetched.value.ArrayRow? then Outcome([], Some(TypeError(ObjectExpected)), rest)
    else
      var (rows, error) := Expand(mode, attrs, fetched.value);
      if error.Some? then Outcome(rows, error, rest)
      else Prepend(rows, CollectAsWritten(mode, attrs, rest))
  }

  /** In OBJ mode the code as written and the corrected loop agree. */
  lemma {:induction false} CollectAsWrittenObjects(attrs: Attributes, cursor: seq<Step>)
    ensures CollectAsWritten(FetchObj, attrs, cursor) == Collect(FetchObj, attrs, cursor)
    decreases |cursor|
  {
    if cursor != [] {
      CollectAsWrittenObjects(attrs, cursor[1..]);
    }
  }

  /** In ASSOC and BOTH mode, as written, a first row with columns raises a TypeError. */
  lemma ArrayRowRaises(mode: int, attrs: Attributes, columns: seq<(string, Cell)>, rest: seq<Step>)
    requires mode == FetchAssoc || mode == FetchBoth
    requires columns != []
    ensures CollectAsWritten(mode, attrs, [Row(columns)] + rest).error == Some(TypeError(ObjectExpected))
    ensures CollectAsWritten(mode, attrs, [Row(columns)] + rest).rows == []
  {
    var c := [Row(columns)] + rest;
    assert c[0] == Row(columns);
    ShapeDistinct(attrs, columns);
  }

  /** One row `id = 1` under fetchAll(FETCH_ASSOC): collected by the corrected loop, a TypeError as written. */
  lemma AssocRowExample()
    ensures var c := [Row([("id", Val(Int(1)))])];
      var attrs := Attributes(false, false, false);
      && Collect(FetchAssoc, attrs, c) == Outcome([ArrayRow([("id", Val(Int(1)))])], None, [])
      && CollectAsWritten(FetchAssoc, attrs, c).error == Some(TypeError(ObjectExpected))
  {
    var columns: seq<(string, Cell)> := [("id", Val(Int(1)))];
    var attrs := Attributes(false, false, false);
    var c := [Row(columns)];
    assert columns[..0] == [];
    assert Shape(attrs, columns) == columns;
    assert c[1..] == [];
    ArrayRowRaises(FetchAssoc, attrs, columns, []);
    assert [Row(columns)] + [] == c;
  }

  /** A step that ends the loop without an error: an empty row in an array mode. */
  predicate StopsLoop(mode: int, step: Step) {
    mode != FetchObj && step.Row? && step.columns == []
  }

  lemma PrependPrepend(x: seq<Fetched>, y: seq<Fetched>, o: Outcome)
    ensures Prepend(x, Prepend(y, o)) == Prepend(x + y, o)
  {
    assert x + (y + o.rows) == (x + y) + o.rows;
  }

  lemma AppendTail<T>(a: seq<T>, b: seq<T>)
    requires a != []
    ensures a + b != [] && (a + b)[0] == a[0] && (a + b)[1..] == a[1..] + b
  {
  }

  /** A fetch reads only the first step. */
  lemma FetchRowHead(mode: int, attrs: Attributes, c1: seq<Step>, c2: seq<Step>)
    requires c1 != [] && c2 != [] && c1[0] == c2[0]
    ensures FetchRow(mode, attrs, c1).0 == FetchRow(mode, attrs, c2).0
  {
  }

  /** A failing fetch ends the outer loop with its error. */
  lemma CollectFault(mode: int, attrs: Attributes, c: seq<Step>)
    requires SupportedMode(mode)
    requires c != [] && c[0].Fault?
    ensures Collect(mode, attrs, c).error == Some(FromNative(c[0].error))
  {
  }

  /** One turn of the outer loop over a row that does not stop it. */
  lemma CollectStep(mode: int, attrs: Attributes, c: seq<Step>)
    requires SupportedMode(mode)
    requires c != [] && c[0].Row? && !StopsLoop(mode, c[0])
    ensures FetchRow(mode, attrs, c).0.Ok?
    ensures var e := Expand(mode, attrs, FetchRow(mode, attrs, c).0.value);
      Collect(mode, attrs, c) == if e.1.Some? then Outcome(e.0, e.1, c[1..]) else Prepend(e.0, Collect(mode, attrs, c[1..]))
  {
    ShapeDistinct(attrs, c[0].columns);
  }

  /**
   * Fetching runs across a cut in the result set: when the first part
   * raises nothing and holds no stopping row, the rows collected from the
   * whole are those of the first part followed by those of the second.
   */
  lemma {:induction false} CollectAppend(mode: int, attrs: Attributes, a: seq<Step>, b: seq<Step>)
    requires SupportedMode(mode)
    requires Collect(mode, attrs, a).error == None
    requires forall i :: 0 <= i < |a| ==> !StopsLoop(mode, a[i])
    ensures Collect(mode, attrs, a + b) == Prepend(Collect(mode, attrs, a).rows, Collect(mode, attrs, b))
    decreases |a|
  {
    if a == [] {
      assert a + b == b;
    } else {
      if a[0].Fault? {
        CollectFault(mode, attrs, a);
      }
      assert !StopsLoop(mode, a[0]);
      var ab := a + b;
      AppendTail(a, b);
      CollectStep(mode, attrs, a);
      CollectStep(mode, attrs, ab);
      FetchRowHead(mode, attrs, a, ab);
      var e := Expand(mode, attrs, FetchRow(mode, attrs, a).0.value);
      assert Expand(mode, attrs, FetchRow(mode, attrs, ab).0.value) == e;
      var tail, rest := Collect(mode, attrs, a[1..]), Collect(mode, attrs, b);
      assert e.1 == None;
      assert Collect(mode, attrs, a) == Prepend(e.0, tail);
      forall i | 0 <= i < |a[1..]| ensures !StopsLoop(mode, a[1..][i]) {
        assert a[1..][i] == a[i + 1];
      }
      CollectAppend(mode, attrs, a[1..], b);
      assert Collect(mode, attrs, ab) == Prepend(e.0, Prepend(tail.rows, rest));
      PrependPrepend(e.0, tail.rows, rest);
      assert Collect(mode, attrs, a).rows == e.0 + tail.rows;
    }
  }

  /** A row whose first field is a cursor is replaced by that cursor's rows, which are not spliced again. */
  lemma SpliceOne(mode: int, attrs: Attributes, columns: seq<(string, Cell)>, steps: seq<Step>)
    requires SupportedMode(mode)
    requires Shape(attrs, columns) != [] && Shape(attrs, columns)[0].1 == Cursor(steps)
    requires Drain(mode, attrs, steps).error == None
    ensures Collect(mode, attrs, [Row(columns)]).rows == Drain(mode, attrs, steps).rows
    ensures Collect(mode, attrs, [Row(columns)]).error == None
  {
    var c := [Row(columns)];
    var row := FetchRow(mode, attrs, c).0.value;
    assert row.fields == Shape(attrs, columns);
    assert Continues(row) && NestedCursor(row) == Some(steps);
    assert c[1..] == [];
    CollectTurn(mode, attrs, c);
    assert Collect(mode, attrs, []) == Outcome([], None, []);
  }

  /** One turn of fetchAll's outer loop, by what the fetch returned. */
  lemma CollectTurn(mode: int, attrs: Attributes, c: seq<Step>)
    requires SupportedMode(mode)
    ensures var (fetched, rest) := FetchRow(mode, attrs, c);
      && (fetched.Err? ==> Collect(mode, attrs, c) == Outcome([], Some(fetched.error), rest))
      && (fetched.Ok? && !Continues(fetched.value) ==> Collect(mode, attrs, c) == Outcome([], None, rest))
      && (fetched.Ok? && Continues(fetched.value) ==>
            var e := Expand(mode, attrs, fetched.value);
            Collect(mode, attrs, c) == if e.1.Some? then Outcome(e.0, e.1, rest) else Prepend(e.0, Collect(mode, attrs, rest)))
  {
  }

  /** One turn of the nested loop, by what the fetch returned. */
  lemma DrainTurn(mode: int, attrs: Attributes, c: seq<Step>)
    requires SupportedMode(mode)
    ensures var (fetched, rest) := FetchRow(mode, attrs, c);
      && (fetched.Err? ==> Drain(mode, attrs, c) == Outcome([], Some(fetched.error), rest))
      && (fetched.Ok? && !Continues(fetched.value) ==> Drain(mode, attrs, c) == Outcome([], None, rest))
      && (fetched.Ok? && Continues(fetched.value) ==>
            Drain(mode, attrs, c) == Prepend([fetched.value], Drain(mode, attrs, rest)))
  {
  }

  // ---------------------------------------------------------------------
  // The statement

  /** What the native execute reports, and the result set it leaves to fetch from. */
  datatype ExecOutcome = ExecOutcome(status: bool, error: Option<NativeError>, resultSet: seq<Step>)

  /** `empty($v)` for a field value; a cursor handle is never empty. */
  predicate IsEmptyCell(c: Cell) {
    c.Val? && !Truthy(c.value)
  }

  class Statement {
    /** The named slots, in table order; bindValue fills them, execute clears them. */
    var parameters: Table<Key, Value>
    /** The text handed to the native prepare. */
    var prepared: string
    var fetchMode: int
    var results: seq<Fetched>
    /** The native result set still to be fetched. */
    var cursor: seq<Step>

    predicate Valid()
      reads this
    {
      SupportedMode(fetchMode) && DistinctKeys(parameters)
    }

    constructor (parameters: Table<Key, Value>, prepared: string)
      ensures this.parameters == parameters && this.prepared == prepared
      ensures fetchMode == FetchObj && results == [] && cursor == []
      ensures DistinctKeys(parameters) ==> Valid()
    {
      this.parameters := parameters;
      this.prepared := prepared;
      fetchMode := FetchObj;
      results := [];
      cursor := [];
    }

    /** parameters(): walk the space-separated tokens, giving each `:`-token a null slot. */
    static method Parameters(sql: string) returns (params: Table<Key, Value>)
      ensures params == ParameterSlots(sql)
    {
      params := [];
      var values := Explode(' ', sql);
      var count := 0;
      while count < |values|
        invariant 0 <= count <= |values|
        invariant params == PutAll([], Slots(values[..count]))
      {
        assert values[..count + 1] == values[..count] + [values[count]];
        SlotsSnoc(values[..count], values[count]);
        if IsPlaceholderToken(values[count]) {
          PutAllSnoc([], Slots(values[..count]), (Named(values[count]), Null));
          params := Put(params, Named(values[count]), Null);
        }
        count := count + 1;
      }
      assert values[..|values|] == values;
    }

    /**
     * The constructor: slots from the text, the rewritten text to the
     * native prepare, a raised prepare error, then the connection's
     * default fetch mode when it is set.
     */
    static method Open(defaultFetchMode: int, sql: string, prepareError: Option<NativeError>)
      returns (r: Result<Statement>)
      ensures prepareError.Some? ==> r == Err(FromNative(prepareError.value))
      ensures prepareError.None? && defaultFetchMode != 0 && !SupportedMode(defaultFetchMode)
        ==> r == Err(UnsupportedMode())
      ensures r.Ok? <==> prepareError.None? && (defaultFetchMode == 0 || SupportedMode(defaultFetchMode))
      ensures r.Ok? ==> fresh(r.value) && r.value.Valid()
      ensures r.Ok? ==> r.value.parameters == ParameterSlots(sql) && r.value.prepared == Rewrite(sql)
      ensures r.Ok? ==> r.value.fetchMode == (if defaultFetchMode != 0 then defaultFetchMode else FetchObj)
      ensures r.Ok? ==> r.value.results == [] && r.value.cursor == []
    {
      var params := Parameters(sql);
      ParameterSlotsShape(sql);
      var s := new Statement(params, Rewrite(sql));
      if prepareError.Some? {
        return Err(FromNative(prepareError.value));
      }
      if defaultFetchMode != 0 {
        var accepted := s.SetFetchMode(defaultFetchMode);
        if accepted.Err? {
          return Err(accepted.error);
        }
      }
      return Ok(s);
    }

    /** bindValue: the slot of an existing key is overwritten in place, a new key appended. */
    method BindValue(key: Key, value: Value) returns (ok: bool)
      requires Valid()
      modifies this
      ensures Valid()
      ensures parameters == Put(old(parameters), key, value)
      ensures ok
      ensures fetchMode == old(fetchMode) && results == old(results) && cursor == old(cursor)
      ensures prepared == old(prepared)
    {
      parameters := Put(parameters, key, value);
      return true;
    }

    /**
     * execute: the native execute gets the slot values in table order;
     * the table is cleared before a native error is raised.
     */
    method Execute(native: ExecOutcome) returns (r: Result<bool>, sent: seq<Value>)
      requires Valid()
      modifies this
      ensures Valid()
      ensures sent == Values(old(parameters))
      ensures parameters == [] && cursor == native.resultSet
      ensures r == if native.error.Some? then Err(FromNative(native.error.value)) else Ok(native.status)
      ensures fetchMode == old(fetchMode) && results == old(results) && prepared == old(prepared)
    {
      EmptyDistinct<Key, Value>();
      sent := Values(parameters);
      parameters, cursor := [], native.resultSet;
      r := if native.error.Some? then Err(FromNative(native.error.value)) else Ok(native.status);
      assert SupportedMode(fetchMode) && DistinctKeys(parameters);
    }

    /** setFetchMode: ASSOC, BOTH and OBJ are accepted; anything else raises and changes nothing. */
    method SetFetchMode(mode: int) returns (r: Result<bool>)
      requires Valid()
      modifies this
      ensures Valid()
      ensures r.Ok? <==> SupportedMode(mode)
      ensures SupportedMode(mode) ==> r == Ok(true) && fetchMode == mode
      ensures !SupportedMode(mode) ==> r == Err(UnsupportedMode()) && fetchMode == old(fetchMode)
      ensures parameters == old(parameters) && results == old(results) && cursor == old(cursor)
      ensures prepared == old(prepared)
    {
      if mode == FetchAssoc || mode == FetchBoth || mode == FetchObj {
        fetchMode := mode;
        return Ok(true);
      }
      return Err(UnsupportedMode());
    }

    /**
     * The OBJ branch's loop: the null-to-string and empty-to-null rewrites
     * go to the local array only, so the object carries the raw values.
     */
    static method BuildObject(resultSet: Table<string, Cell>, attrs: Attributes) returns (obj: Table<string, Cell>)
      requires DistinctKeys(resultSet)
      ensures obj == resultSet
    {
      var local := resultSet;
      obj := [];
      for i := 0 to |resultSet|
        invariant obj == resultSet[..i]
      {
        var (field, value) := resultSet[i];
        if value == Val(Null) && attrs.nullToString {
          local := Put(local, field, Val(Str("")));
        }
        var current := Lookup(local, field);
        if current.Some? && IsEmptyCell(current.value) && attrs.nullEmptyString {
          local := Put(local, field, Val(Null));
        }
        assert field !in Keys(obj) by {
          forall j | 0 <= j < i ensures Keys(obj)[j] != field {
            assert Keys(obj)[j] == resultSet[j].0;
          }
        }
        obj := Put(obj, field, value);
        assert resultSet[..i + 1] == resultSet[..i] + [resultSet[i]];
      }
      assert resultSet[..|resultSet|] == resultSet;
    }

    /** fetch: one row in the given mode, or in the stored one when none is given. */
    method Fetch(mode: Option<int>, attrs: Attributes) returns (r: Result<Fetched>)
      requires Valid()
      modifies this
      ensures Valid()
      ensures mode.None? ==> (r == Ok(NoRow) <==> old(cursor) == [])
      ensures var m := if mode.Some? then mode.value else old(fetchMode);
        (r, cursor) == FetchRow(m, attrs, old(cursor))
      ensures fetchMode == old(fetchMode) && parameters == old(parameters) && results == old(results)
      ensures prepared == old(prepared)
    {
      var m := if mode.Some? then mode.value else fetchMode;
      if m == FetchBoth || m == FetchAssoc || m == FetchObj {
        if cursor == [] {
          return Ok(NoRow);
        }
        var step := cursor[0];
        cursor := cursor[1..];
        if step.Fault? {
          return Err(FromNative(step.error));
        }
        var resultSet := NativeArray(step.columns);
        if attrs.caseLower {
          resultSet := ChangeKeyCase(resultSet);
        }
        if m != FetchObj {
          return Ok(ArrayRow(resultSet));
        }
        ShapeDistinct(attrs, step.columns);
        var obj := BuildObject(resultSet, attrs);
        return Ok(ObjectRow(obj));
      }
      return Ok(NoRow);
    }

    /**
     * fetchAll's inner loop: a new statement over the nested cursor, in
     * the same mode, whose rows are appended to the results.
     */
    method AppendNested(mode: int, attrs: Attributes, steps: seq<Step>) returns (error: Option<Error>)
      requires SupportedMode(mode) && Valid()
      modifies this
      ensures Valid()
      ensures var d := Drain(mode, attrs, steps); results == old(results) + d.rows && error == d.error
      ensures fetchMode == old(fetchMode) && parameters == old(parameters) && cursor == old(cursor)
      ensures prepared == old(prepared)
    {
      var stmt := new Statement([], "");
      var status, sent := stmt.Execute(ExecOutcome(true, None, steps));
      var modeSet := stmt.SetFetchMode(mode);
      while true
        invariant stmt != this && stmt.fetchMode == mode && stmt.Valid()
        invariant fetchMode == old(fetchMode) && parameters == old(parameters) && cursor == old(cursor)
        invariant prepared == old(prepared)
        invariant Prepend(results, Drain(mode, attrs, stmt.cursor)) == Prepend(old(results), Drain(mode, attrs, steps))
        decreases |stmt.cursor|
      {
        ghost var before := stmt.cursor;
        var rs := stmt.Fetch(None, attrs);
        DrainTurn(mode, attrs, before);
        if rs.Err? {
          return Some(rs.error);
        }
        if !Continues(rs.value) {
          return None;
        }
        PrependPrepend(results, [rs.value], Drain(mode, attrs, stmt.cursor));
        results := results + [rs.value];
      }
    }

    /**
     * fetchAll: set the mode, reset the results, then fetch until a falsy
     * row, replacing a row whose first field is a cursor handle by that
     * cursor's rows.  A raised error leaves the rows collected so far.
     */
    method FetchAll(mode: int, attrs: Attributes) returns (r: Result<seq<Fetched>>)
      requires Valid()
      modifies this
      ensures Valid()
      ensures !SupportedMode(mode) ==> r == Err(UnsupportedMode())
      ensures !SupportedMode(mode) ==> fetchMode == old(fetchMode) && results == old(results) && cursor == old(cursor)
      ensures SupportedMode(mode) ==> var o := Collect(mode, attrs, old(cursor));
        && fetchMode == mode && results == o.rows && cursor == o.rest
        && r == if o.error.Some? then Err(o.error.value) else Ok(o.rows)
      ensures parameters == old(parameters) && prepared == old(prepared)
    {
      var accepted := SetFetchMode(mode);
      if accepted.Err? {
        return Err(accepted.error);
      }
      results := [];
      ghost var start := cursor;
      while true
        invariant fetchMode == mode && parameters == old(parameters) && prepared == old(prepared) && Valid()
        invariant Prepend(results, Collect(mode, attrs, cursor)) == Collect(mode, attrs, start)
        decreases |cursor|
      {
        ghost var before := cursor;
        var row := Fetch(None, attrs);
        CollectTurn(mode, attrs, before);
        if row.Err? {
          return Err(row.error);
        }
        if !Continues(row.value) {
          return Ok(results);
        }
        var nested := NestedCursor(row.value);
        ghost var pre := results;
        ghost var e := Expand(mode, attrs, row.value);
        if nested.Some? {
          var error := AppendNested(mode, attrs, nested.value);
          if error.Some? {
            return Err(error.value);
          }
        } else {
          results := results + [row.value];
        }
        assert results == pre + e.0 && e.1 == None;
        PrependPrepend(pre, e.0, Collect(mode, attrs, cursor));
      }
    }
  }
}
