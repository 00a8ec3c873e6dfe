/** The bot's configuration: `integer_part`, the three process-wide settings read from the
    environment (`ALLOWED_USERS`, `OPERATOR_ROLE_NAME`, `OPERATOR_ROLE_ID`) and the
    configuration value they make up together. */
module Config {
  import opened Wrappers
  import opened Text
  import opened U64Parse
  import opened Seqs

  // ---------------------------------------------------------------- integer_part

  /** The error `integer_part` reports: the text it was given and why the parse failed
      (the source formats these two into one message). */
  datatype IntegerPartError = IntegerPartError(input: string, kind: IntErrorKind)

  /** The text before the first `.`, or all of it when there is none. */
  function IntegerHead(value: string): (head: string)
    ensures '.' !in head
    ensures head <= value
    ensures head == value || value[|head|] == '.'
  {
    value[..Find(value, '.').GetOr(|value|)]
  }

  /** `integer_part`: parse the text before the first `.` as a `u64`. */
  function IntegerPart(value: string): (r: Result<nat, IntegerPartError>)
    ensures r.Ok? ==> r.value <= U64_MAX
    ensures r.Err? ==> r.error.input == value
  {
    match ParseU64(IntegerHead(value))
    case Ok(n) => Ok(n)
    case Err(kind) => Err(IntegerPartError(value, kind))
  }

  /** Whatever follows the first `.` is ignored, and text without a `.` is parsed whole. */
  lemma IntegerPartIgnoresFraction(digits: string, fraction: string)
    requires '.' !in digits
    ensures IntegerPart(digits).Ok? ==> IntegerPart(digits + "." + fraction) == IntegerPart(digits)
    ensures IntegerPart(digits).Err? ==> IntegerPart(digits + "." + fraction).Err?
    ensures IntegerPart(digits).Err? ==> IntegerPart(digits + "." + fraction).error.kind == IntegerPart(digits).error.kind
  {
    var value := digits + "." + fraction;
    assert value == digits + ['.'] + fraction;
    FindAfter(digits, '.', fraction);
    assert value[..|digits|] == digits;
    assert IntegerHead(value) == digits;
    assert IntegerHead(digits) == digits;
  }

  /** `integer_part` succeeds exactly when the text before the first `.` is an optional `+`
      and one or more digits whose value fits in 64 bits, and then returns that value. It
      fails when that text is empty (`""`, `".5"`), holds a non-digit (`"abc"`, `"-1"`,
      `" 1"`) or is too large. */
  lemma IntegerPartMeaning(value: string)
    ensures var head := IntegerHead(value);
      IntegerPart(value).Ok? <==> IsU64Text(head) && DecimalValue(Magnitude(head)) <= U64_MAX
    ensures var head := IntegerHead(value);
      IntegerPart(value).Ok? ==> IntegerPart(value).value == DecimalValue(Magnitude(head))
    ensures IntegerHead(value) == [] ==> IntegerPart(value) == Err(IntegerPartError(value, Empty))
  {
    ParseU64Meaning(IntegerHead(value));
  }

  /** A role id with a spurious fractional part, as configuration sources that store
      numbers as floats write it, reads as its integer part. */
  lemma IntegerPartFractionExample()
    ensures IntegerPart("123.0") == Ok(123)
  {
    assert IntegerHead("123.0") == "123";
  }

  /** Only the first `.` counts. */
  lemma IntegerPartFirstDotExample()
    ensures IntegerPart("1.2.3") == Ok(1)
  {
    assert IntegerHead("1.2.3") == "1";
  }

  /** Text before the first `.` that is empty or not a number is refused. */
  lemma IntegerPartRejects()
    ensures IntegerPart("") == Err(IntegerPartError("", Empty))
    ensures IntegerPart(".5") == Err(IntegerPartError(".5", Empty))
    ensures IntegerPart("abc") == Err(IntegerPartError("abc", InvalidDigit))
    ensures IntegerPart("-1") == Err(IntegerPartError("-1", InvalidDigit))
    ensures IntegerPart(" 1") == Err(IntegerPartError(" 1", InvalidDigit))
  {
    IntegerPartIgnoresFraction("", "5");
  }

  // ---------------------------------------------------------------- the environment

  /** A variable's value as the operating system holds it: `std::env::var` reports a value
      that is not valid Unicode as an error. */
  datatype EnvValue = Unicode(text: string) | NotUnicode
  type Env = map<string, EnvValue>

  /** The two errors of `std::env::var`. */
  datatype VarError = NotPresent | InvalidUnicode

  /** `std::env::var`. */
  function Var(env: Env, key: string): (r: Result<string, VarError>)
    ensures r.Ok? <==> key in env && env[key].Unicode?
    ensures r.Ok? ==> r.value == env[key].text
    ensures r == Err(NotPresent) <==> key !in env
  {
    if key !in env then Err(NotPresent)
    else match env[key]
      case Unicode(text) => Ok(text)
      case NotUnicode => Err(InvalidUnicode)
  }

  /** Why the configuration cannot be built: in the source each of these is a panic. A zero
      user or role id is refused by the platform's id constructors (`UserId::new`,
      `RoleId::new`). */
  datatype ConfigError =
    | AllowedUsersUnset(cause: VarError)
    | AllowedUserZero
    | RoleIdUnset(cause: VarError)
    | RoleIdInvalid(parseError: IntegerPartError)
    | RoleIdZero

  // ---------------------------------------------------------------- ALLOWED_USERS

  /** The closure given to `filter_map`: trim the piece and keep its `u64` value, if any. */
  function ParsePiece(piece: string): (r: Option<nat>)
    ensures r.Some? ==> r.value <= U64_MAX
  {
    match ParseU64(Trim(piece))
    case Ok(id) => Some(id)
    case Err(_) => None
  }

  /** The ids the pieces of an `ALLOWED_USERS` value give: split on `,`, trim, keep what
      parses as a `u64`. */
  function PieceIds(raw: string): seq<nat> {
    FilterMap(Split(raw, ','), ParsePiece)
  }

  /** The `ALLOWED_USERS` value to allow-list. Each kept value becomes a user id, and a user
      id cannot be zero: a piece that parses to 0 aborts the whole list. */
  function ParseAllowList(raw: string): Result<seq<nat>, ConfigError> {
    UserIds(PieceIds(raw))
  }

  /** `UserId::new` over the parsed values: it refuses 0. */
  function UserIds(ids: seq<nat>): Result<seq<nat>, ConfigError> {
    if 0 in ids then Err(AllowedUserZero) else Ok(ids)
  }

  /** The allow-list of a whole `ALLOWED_USERS` value. It fails exactly when some
      comma-separated piece parses to 0. Otherwise it has at most one id per piece, every
      id lies in 1 ..= 2^64-1, its ids are the values of the pieces that parse, in order,
      and a user is on it exactly when some piece parses to their id. */
  lemma AllowListMeaning(raw: string, user: nat) returns (idx: seq<nat>)
    ensures ParseAllowList(raw).Err? <==>
      exists i :: 0 <= i < |Split(raw, ',')| && ParsePiece(Split(raw, ',')[i]) == Some(0)
    ensures ParseAllowList(raw).Err? ==> ParseAllowList(raw).error == AllowedUserZero
    ensures ParseAllowList(raw).Ok? ==>
      var ids := ParseAllowList(raw).value;
      && |ids| <= |Split(raw, ',')|
      && IsSelection(idx, Split(raw, ','), ParsePiece, ids)
      && (forall k :: 0 <= k < |ids| ==> 1 <= ids[k] <= U64_MAX)
      && (user in ids <==>
          exists i :: 0 <= i < |Split(raw, ',')| && ParsePiece(Split(raw, ',')[i]) == Some(user))
  {
    var pieces := Split(raw, ',');
    var ids := PieceIds(raw);
    idx := FilterMapSelects(pieces, ParsePiece);
    FilterMapMembership(pieces, ParsePiece, user);
    FilterMapMembership(pieces, ParsePiece, 0);
    forall k | 0 <= k < |ids| ensures ids[k] <= U64_MAX {
      assert ParsePiece(pieces[idx[k]]) == Some(ids[k]);
    }
  }

  lemma SplitExample()
    ensures Split("111, 222,,abc,333", ',') == ["111", " 222", "", "abc", "333"]
  {
    var pieces := ["111", " 222", "", "abc", "333"];
    assert Join(pieces, ',') == "111, 222,,abc,333";
    SplitJoin(pieces, ',');
  }

  lemma PieceExample111()
    ensures ParsePiece("111") == Some(111)
  {
    TrimPadded([], "111", []);
  }

  lemma PieceExample222()
    ensures ParsePiece(" 222") == Some(222)
  {
    TrimPadded(" ", "222", []);
    assert " 222" == " " + "222" + [];
    assert ParseU64("222") == Ok(222);
  }

  lemma PieceExample333()
    ensures ParsePiece("333") == Some(333)
  {
    TrimPadded([], "333", []);
  }

  lemma PieceExamplesDropped()
    ensures ParsePiece("") == None
    ensures ParsePiece("abc") == None
  {
    TrimPadded([], "abc", []);
  }

  /** The filtering stage of the worked example, for any piece parser that gives what
      `ParsePiece` gives on those pieces. */
  lemma FilterMapExample(parse: string -> Option<nat>)
    requires parse("111") == Some(111) && parse(" 222") == Some(222) && parse("333") == Some(333)
    requires parse("") == None && parse("abc") == None
    ensures FilterMap(["111", " 222", "", "abc", "333"], parse) == [111, 222, 333]
  {
    var pieces := ["111", " 222", "", "abc", "333"];
    assert FilterMap(pieces[4..], parse) == [333];
    assert pieces[3..][1..] == pieces[4..];
    assert FilterMap(pieces[3..], parse) == [333];
    assert pieces[2..][1..] == pieces[3..];
    assert FilterMap(pieces[2..], parse) == [333];
    assert pieces[1..][1..] == pieces[2..];
    assert FilterMap(pieces[1..], parse) == [222, 333];
  }

  /** The worked example: empty and malformed pieces are dropped, whitespace is trimmed. */
  lemma AllowListExample()
    ensures ParseAllowList("111, 222,,abc,333") == Ok([111, 222, 333])
  {
    SplitExample();
    WorkedAllowList("111, 222,,abc,333");
  }

  /** Any value that splits into the worked example's pieces gives its allow-list. */
  lemma WorkedAllowList(raw: string)
    requires Split(raw, ',') == ["111", " 222", "", "abc", "333"]
    ensures ParseAllowList(raw) == Ok([111, 222, 333])
  {
    PieceExample111();
    PieceExample222();
    PieceExample333();
    PieceExamplesDropped();
    FilterMapExample(ParsePiece);
    assert PieceIds(raw) == [111, 222, 333];
  }

  /** An empty value gives an empty list, and a repeated id is kept twice. */
  lemma AllowListEdgeExamples()
    ensures ParseAllowList("") == Ok([])
    ensures ParseAllowList("5,5") == Ok([5, 5])
  {
    assert Split("", ',') == [""];
    assert ParsePiece("") == None;
    assert Join(["5", "5"], ',') == "5,5";
    SplitJoin(["5", "5"], ',');
    TrimPadded([], "5", []);
    assert ParsePiece("5") == Some(5);
    assert PieceIds("5,5") == [5, 5];
  }

  /** A piece that reads as 0, however it is written, makes the whole list fail. */
  lemma AllowListZeroExample()
    ensures ParsePiece(" +0") == Some(0)
    ensures ParseAllowList("0") == Err(AllowedUserZero)
  {
    TrimPadded(" ", "+0", []);
    assert " +0" == " " + "+0" + [];
    assert ParseU64("+0") == Ok(0);
    assert Split("0", ',') == ["0"];
    TrimPadded([], "0", []);
    assert ParsePiece("0") == Some(0);
  }

  // ---------------------------------------------------------------- the three settings

  const DEFAULT_ROLE_NAME: string := "Operator"

  /** `ALLOWED_USERS`: required; its value is parsed leniently, but a zero id aborts. */
  function AllowedUsers(env: Env): (r: Result<seq<nat>, ConfigError>)
    ensures r.Err? <==> Var(env, "ALLOWED_USERS").Err? || ParseAllowList(Var(env, "ALLOWED_USERS").value).Err?
    ensures Var(env, "ALLOWED_USERS").Err? ==> r == Err(AllowedUsersUnset(Var(env, "ALLOWED_USERS").error))
    ensures Var(env, "ALLOWED_USERS").Ok? ==> r == ParseAllowList(Var(env, "ALLOWED_USERS").value)
  {
    match Var(env, "ALLOWED_USERS")
    case Ok(raw) => ParseAllowList(raw)
    case Err(e) => Err(AllowedUsersUnset(e))
  }

  /** `OPERATOR_ROLE_NAME`: the value whenever `std::env::var` gives one, the empty string
      included; `"Operator"` when it gives an error. */
  function OperatorRoleName(env: Env): (name: string)
    ensures "OPERATOR_ROLE_NAME" in env && env["OPERATOR_ROLE_NAME"].Unicode? ==>
      name == env["OPERATOR_ROLE_NAME"].text
    ensures "OPERATOR_ROLE_NAME" !in env ==> name == DEFAULT_ROLE_NAME
    ensures "OPERATOR_ROLE_NAME" in env && env["OPERATOR_ROLE_NAME"].NotUnicode? ==> name == DEFAULT_ROLE_NAME
  {
    match Var(env, "OPERATOR_ROLE_NAME")
    case Ok(text) => text
    case Err(_) => DEFAULT_ROLE_NAME
  }

  /** `OPERATOR_ROLE_ID`: required, must pass `integer_part`, and must not be 0. */
  function OperatorRoleId(env: Env): (r: Result<nat, ConfigError>)
    ensures r.Ok? <==>
      && Var(env, "OPERATOR_ROLE_ID").Ok?
      && IntegerPart(Var(env, "OPERATOR_ROLE_ID").value).Ok?
      && IntegerPart(Var(env, "OPERATOR_ROLE_ID").value).value != 0
    ensures r.Ok? ==> r.value == IntegerPart(Var(env, "OPERATOR_ROLE_ID").value).value
    ensures r.Ok? ==> 1 <= r.value <= U64_MAX
    ensures "OPERATOR_ROLE_ID" !in env ==> r == Err(RoleIdUnset(NotPresent))
    ensures Var(env, "OPERATOR_ROLE_ID").Ok? && IntegerPart(Var(env, "OPERATOR_ROLE_ID").value) == Ok(0)
      ==> r == Err(RoleIdZero)
  {
    match Var(env, "OPERATOR_ROLE_ID")
    case Err(e) => Err(RoleIdUnset(e))
    case Ok(raw) =>
      match IntegerPart(raw)
      case Ok(id) => if id == 0 then Err(RoleIdZero) else Ok(id)
      case Err(e) => Err(RoleIdInvalid(e))
  }

  /** A zero role id is refused even when it carries a fractional part. */
  lemma RoleIdZeroExample(env: Env)
    requires "OPERATOR_ROLE_ID" in env && env["OPERATOR_ROLE_ID"] == Unicode("0.0")
    ensures OperatorRoleId(env) == Err(RoleIdZero)
  {
    assert IntegerHead("0.0") == "0";
  }

  /** The process-wide configuration, computed once. */
  datatype Configuration = Configuration(allowedUsers: seq<nat>, roleName: string, roleId: nat)

  /** All three settings; the allow-list is read first, as at start-up. */
  function LoadConfig(env: Env): Result<Configuration, ConfigError> {
    match AllowedUsers(env)
    case Err(e) => Err(e)
    case Ok(users) =>
      match OperatorRoleId(env)
      case Err(e) => Err(e)
      case Ok(id) => Ok(Configuration(users, OperatorRoleName(env), id))
  }

  /** Loading fails exactly when `ALLOWED_USERS` cannot be read or has a piece that parses
      to 0, or `OPERATOR_ROLE_ID` cannot be read, fails `integer_part` or is 0; otherwise
      every field is its setting and every id is nonzero. An empty `ALLOWED_USERS` is not a
      failure. */
  lemma LoadConfigMeaning(env: Env)
    ensures LoadConfig(env).Err? <==>
      || Var(env, "ALLOWED_USERS").Err?
      || ParseAllowList(env["ALLOWED_USERS"].text).Err?
      || Var(env, "OPERATOR_ROLE_ID").Err?
      || IntegerPart(env["OPERATOR_ROLE_ID"].text).Err?
      || IntegerPart(env["OPERATOR_ROLE_ID"].text).value == 0
    ensures "ALLOWED_USERS" !in env ==> LoadConfig(env) == Err(AllowedUsersUnset(NotPresent))
    ensures Var(env, "ALLOWED_USERS").Ok? && ParseAllowList(env["ALLOWED_USERS"].text).Err? ==>
      LoadConfig(env) == Err(AllowedUserZero)
    ensures LoadConfig(env).Ok? ==>
      && LoadConfig(env).value.allowedUsers == PieceIds(env["ALLOWED_USERS"].text)
      && 0 !in LoadConfig(env).value.allowedUsers
      && LoadConfig(env).value.roleName == OperatorRoleName(env)
      && LoadConfig(env).value.roleId == IntegerPart(env["OPERATOR_ROLE_ID"].text).value
      && 1 <= LoadConfig(env).value.roleId <= U64_MAX
  {
  }

  /** A present but empty role name is kept, and an empty allow-list value loads. */
  lemma EmptySettings(env: Env)
    requires "ALLOWED_USERS" in env && env["ALLOWED_USERS"] == Unicode("")
    requires "OPERATOR_ROLE_NAME" in env && env["OPERATOR_ROLE_NAME"] == Unicode("")
    requires OperatorRoleId(env).Ok?
    ensures LoadConfig(env).Ok?
    ensures LoadConfig(env).value.allowedUsers == []
    ensures LoadConfig(env).value.roleName == ""
  {
    AllowListEdgeExamples();
  }
}
