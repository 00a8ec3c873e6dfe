# AutoHauC3 operator bot: configuration and authorization model

AutoHauC3 is a Discord bot with two commands. `op <user>` gives a user the operator role, and `deop <user>` takes it away. A caller may run either command when one of two things holds:

- the caller holds the guild role whose name is configured in `OPERATOR_ROLE_NAME` (default `"Operator"`);
- the caller's user id is listed in `ALLOWED_USERS`.

The role that is granted or revoked is identified by `OPERATOR_ROLE_ID`. Its value may carry a spurious fractional part (`"718954921353019454.0"`), which `integer_part` removes before the text is parsed as a `u64`.

This project is a Dafny model of that logic, in seven modules:

- `Wrappers` (wrappers.dfy): `Option` and `Result`.
- `Text` (text.dfy): the Rust `str` operations the configuration code uses: `find`, `split` (with its inverse `Join`) and `trim` (Unicode White_Space).
- `U64Parse` (u64_parse.dfy): `<u64 as FromStr>::from_str`, written as Rust's digit loop (`Accumulate`). It is proved against the positional value of a digit string.
- `Seqs` (seqs.dfy): `Iterator::filter_map` collected into a `Vec`.
- `Config` (config.dfy): `integer_part`, the environment as read by `std::env::var`, the three settings and the configuration value they form.
- `Permission` (permission.dfy): `has_permission`, a pure function of what the platform reports.
- `Commands` (commands.dfy): the `op` and `deop` handlers, as methods on a `Platform` object whose log records every role change and message.

Platform inputs are plain values:

- the result of fetching the author's member record;
- that member's roles, as role ids;
- the guild's roles, as (id, name) pairs in the platform's iteration order;
- the author's id;
- whether the platform carries out the requested role change.

### Behaviour of the code worth knowing

- A failure to fetch the member or its roles does not produce a message of its own. It is returned as the command's error (`?`), with no message and no role change.
- `OPERATOR_ROLE_NAME` set to the empty string is kept as `""`. The default `"Operator"` is used only when `std::env::var` fails: when the variable is absent or not valid Unicode.
- `ALLOWED_USERS` is required. When it is absent, the program panics the first time the allow-list is read: at start-up when info logging is enabled (the default `RUST_LOG`), otherwise on the first `has_permission` that reaches the allow-list check. An empty value gives an empty allow-list.
- The role path checks that the role returned by `role_by_name` under the configured name is among the member's roles. It does not check whether the member holds any role with that name. When two guild roles share the name, only the one the lookup finds counts (`Permission.DuplicateNameExample`). When names are unique, the two readings agree (`Permission.NamedRoleAdmits`).
- The allow-list is an ordered list that keeps duplicates, not a set.
- Platform ids are nonzero: `UserId::new` and `RoleId::new` of the serenity library panic on 0. An `ALLOWED_USERS` piece that parses to 0 (`"0"`, `" 00"`, `"+0"`) aborts the whole allow-list, and an `OPERATOR_ROLE_ID` whose integer part is 0 (`"0"`, `"0.0"`) aborts the role id. The model reports these as `AllowedUserZero` and `RoleIdZero`.

## Model

| member | source | states |
|---|---|---|
| Text.Find | src/main.rs:16 | the position returned holds the first `.`, with none before it; `None` exactly when there is no `.` |
| Text.Split | src/main.rs:113 | `split(',')` gives at least one piece; no piece contains the separator; joining the pieces with the separator gives back the input |
| Text.SplitJoin | src/main.rs:113 | splitting is also a left inverse of joining, for pieces without the separator |
| Text.TrimStartMeaning | src/main.rs:114 | the result is a suffix of the input; everything dropped is whitespace; the result does not start with whitespace |
| Text.TrimEndMeaning | src/main.rs:114 | the result is a prefix of the input; everything dropped is whitespace; the result does not end with whitespace |
| Text.TrimStart | src/main.rs:114 | the leading half of `trim`; its meaning is stated in Text.TrimStartMeaning |
| Text.TrimEnd | src/main.rs:114 | the trailing half of `trim`; its meaning is stated in Text.TrimEndMeaning |
| Text.Trim | src/main.rs:114 | `str::trim`; its meaning is stated in Text.TrimStartMeaning, Text.TrimEndMeaning and Text.TrimPadded |
| Text.TrimPadded | src/main.rs:114 | `trim` of whitespace + core + whitespace is the core, for any core that neither starts nor ends with whitespace |
| U64Parse.Accumulate | src/main.rs:18 | the digit loop of `parse::<u64>` returns values up to 2^64-1 and only reports `InvalidDigit` or `PosOverflow` |
| U64Parse.ParseU64 | src/main.rs:17-18 | every value `parse::<u64>` accepts is at most 2^64-1 |
| U64Parse.AccumulateOnlyDigits | src/main.rs:18 | the digit loop succeeds only on strings made entirely of ASCII digits |
| U64Parse.AccumulateDigits | src/main.rs:18 | on a digit string the loop gives its positional decimal value, and gives `PosOverflow` exactly when that value exceeds 2^64-1 |
| U64Parse.ParseU64Meaning | src/main.rs:17-19 | `parse::<u64>` succeeds exactly on an optional `+` followed by one or more digits whose value fits in 64 bits, and returns that value; `Empty` exactly for `""`; `PosOverflow` for well-formed text that is too large |
| U64Parse.ParseU64Small | src/main.rs:17-19 | `"42"`, `"+7"` and `"007"` parse; `""`, `"+"`, `"-1"`, `" 1"` and `"++1"` fail with the error kinds Rust reports |
| Seqs.FilterMap | src/main.rs:114-115 | `filter_map` + `collect` yields at most one value per input element |
| Seqs.FilterMapSelects | src/main.rs:114-115 | the output consists of the images of an increasing selection of input positions; every position left out is one the closure maps to `None` |
| Seqs.FilterMapMembership | src/main.rs:114-115 | a value is in the output exactly when the closure maps some element to it |
| Config.IntegerHead | src/main.rs:16-17 | the text kept is a prefix without `.`, and it is either the whole input or stops just before the first `.` |
| Config.IntegerPart | src/main.rs:15-20 | `integer_part` returns values up to 2^64-1; its error carries the input it was given |
| Config.IntegerPartIgnoresFraction | src/main.rs:16-18 | for digits without `.`, `digits + "." + anything` gives the same result as `digits` alone, with the same error kind on failure |
| Config.IntegerPartMeaning | src/main.rs:15-19 | `integer_part` succeeds exactly when the text before the first `.` is an optional `+` followed by digits that fit in 64 bits, and returns their value; an empty head gives `Empty` |
| Config.IntegerPartFractionExample | src/main.rs:16-18 | `"123.0"` gives 123 |
| Config.IntegerPartFirstDotExample | src/main.rs:16-18 | `"1.2.3"` gives 1 |
| Config.IntegerPartRejects | src/main.rs:17-19 | `""` and `".5"` fail as empty; `"abc"`, `"-1"` and `" 1"` fail with an invalid digit |
| Config.Var | src/main.rs:110 | `std::env::var` gives the value exactly when the variable is set to valid Unicode; it reports `NotPresent` exactly when the variable is unset |
| Config.ParsePiece | src/main.rs:114 | the parse stage of the `filter_map` closure: a piece that parses after trimming gives a value of at most 2^64-1 |
| Config.PieceIds | src/main.rs:113-115 | the values the pieces give, in order; meaning in Config.AllowListMeaning |
| Config.UserIds | src/main.rs:114 | `.map(UserId::new)` over those values: a 0 aborts the list; meaning in Config.AllowListMeaning |
| Config.ParseAllowList | src/main.rs:112-115 | the allow-list of an `ALLOWED_USERS` value; meaning in Config.AllowListMeaning |
| Config.AllowListMeaning | src/main.rs:112-115 | the allow-list fails exactly when some piece parses to 0, with `AllowedUserZero`; otherwise it has at most one id per piece; every id lies in 1 ..= 2^64-1; it lists the trimmed parses of the pieces that parse, in order; a user is on it exactly when some piece parses to their id |
| Config.SplitExample | src/main.rs:113 | `"111, 222,,abc,333"` splits into five pieces, the empty one included |
| Config.PieceExample111 | src/main.rs:114 | piece `"111"` gives 111 |
| Config.PieceExample222 | src/main.rs:114 | piece `" 222"` is trimmed and gives 222 |
| Config.PieceExample333 | src/main.rs:114 | piece `"333"` gives 333 |
| Config.PieceExamplesDropped | src/main.rs:114 | pieces `""` and `"abc"` are dropped |
| Config.FilterMapExample | src/main.rs:114-115 | filtering those five pieces keeps 111, 222 and 333, in order |
| Config.AllowListExample | src/main.rs:112-115 | `"111, 222,,abc,333"` gives `[111, 222, 333]` |
| Config.WorkedAllowList | src/main.rs:112-115 | any value that splits into the pieces `"111"`, `" 222"`, `""`, `"abc"`, `"333"` gives `[111, 222, 333]` |
| Config.AllowListEdgeExamples | src/main.rs:112-115 | an empty value gives `[]` (no failure); `"5,5"` keeps the duplicate |
| Config.AllowListZeroExample | src/main.rs:114 | piece `" +0"` parses to 0, and the value `"0"` makes the allow-list fail with `AllowedUserZero` |
| Config.AllowedUsers | src/main.rs:108-117 | fails exactly when `ALLOWED_USERS` cannot be read (`AllowedUsersUnset` with the `std::env::var` error) or the allow-list of its value fails (a zero id); otherwise it is that allow-list |
| Config.OperatorRoleName | src/main.rs:119-123 | the value whenever it is set to valid Unicode, the empty string included; `"Operator"` when it is unset or not Unicode |
| Config.OperatorRoleId | src/main.rs:125-134 | succeeds exactly when `OPERATOR_ROLE_ID` is readable, passes `integer_part` and is not 0, and then gives that value (in 1 ..= 2^64-1); an unset variable is `RoleIdUnset(NotPresent)`; an integer part of 0 is `RoleIdZero` |
| Config.RoleIdZeroExample | src/main.rs:129-131 | `OPERATOR_ROLE_ID="0.0"` is refused with `RoleIdZero` |
| Config.LoadConfig | src/main.rs:108-134 | the three settings forming one configuration; meaning in Config.LoadConfigMeaning |
| Config.LoadConfigMeaning | src/main.rs:108-134 | loading fails exactly when `ALLOWED_USERS` cannot be read or has a piece that parses to 0, or `OPERATOR_ROLE_ID` cannot be read, fails `integer_part` or is 0; an unset `ALLOWED_USERS` and a zero user id fail first; otherwise each field is its setting and no id is 0 |
| Config.EmptySettings | src/main.rs:110-121 | an empty `ALLOWED_USERS` loads as `[]` and an empty `OPERATOR_ROLE_NAME` stays `""` |
| Permission.RoleByName | src/main.rs:92 | a role found by name has exactly that name and belongs to the guild; `None` exactly when no guild role has that name |
| Permission.HasPermission | src/main.rs:78-104 | a missing member gives `CouldNotGetMember` and missing roles give `CouldNotGetMemberRoles`, before either check and even for allow-listed users; these are the only errors |
| Permission.PermissionIsDisjunction | src/main.rs:91-103 | once retrieval succeeds, `Ok(true)` exactly when (guild present and the role found by name is held) or the author is allow-listed; `Ok(false)` exactly when neither holds |
| Permission.AllowListAdmits | src/main.rs:99-101 | an allow-listed author is admitted whatever their roles and whether or not there is a guild |
| Permission.NamedRoleAdmits | src/main.rs:91-97 | when the configured name identifies one guild role, holding it admits the author whatever the allow-list says |
| Permission.MissingRoleFallsBackToAllowList | src/main.rs:91-101 | with no guild, or no guild role of that name, the decision is allow-list membership alone |
| Permission.NeitherPathDenies | src/main.rs:91-103 | an author who is not allow-listed and holds no guild role of that name is refused |
| Permission.DuplicateNameExample | src/main.rs:92-93 | with two roles named `"Operator"`, holding the one the lookup does not find does not admit |
| Permission.AllowListedByEnvironment | src/main.rs:99-117 | a user that some piece of the `ALLOWED_USERS` value parses to is admitted under the configuration loaded from that environment |
| Commands.Platform.AddRole | src/main.rs:42 | logs one `add_role` call for the target and role, and reports the platform's answer |
| Commands.Platform.RemoveRole | src/main.rs:63 | logs one `remove_role` call for the target and role, and reports the platform's answer |
| Commands.Platform.Say | src/main.rs:37 | logs one message |
| Commands.Mutations | src/main.rs:42 | counts role changes; zero exactly when none of the effects is a role change |
| Commands.Messages | src/main.rs:37-45 | counts messages; zero exactly when none of the effects is a message |
| Commands.CountsAdd | src/main.rs:31-69 | role changes and messages add up over consecutive stretches of a log, so a whole platform log's counts are the sums over its commands |
| Commands.CommandEffects | src/main.rs:31-69 | the effects of one `op` or `deop` invocation; meaning in Commands.DenialChangesNothing, Commands.PermittedChangesOnce, Commands.RetrievalFailureIsSilent and Commands.OneMessagePerCommand |
| Commands.RunOp | src/main.rs:31-48 | `op` appends exactly the effects `CommandEffects(Op, ...)` to the platform log; it returns an error exactly when the permission check does, and that same error |
| Commands.RunDeop | src/main.rs:52-69 | `deop` appends exactly the effects `CommandEffects(Deop, ...)` to the platform log; it returns an error exactly when the permission check does, and that same error |
| Commands.DenialChangesNothing | src/main.rs:36-39 | on `Ok(false)` the only effect is the fixed denial text and no role changes |
| Commands.PermittedChangesOnce | src/main.rs:41-46 | on `Ok(true)` exactly one role change happens, of the command's kind, for the target and the configured role; then comes one message: success or `"An error has occurred."` |
| Commands.RetrievalFailureIsSilent | src/main.rs:36 | a permission error propagates with no message and no role change |
| Commands.OneMessagePerCommand | src/main.rs:31-69 | every invocation that returns normally says exactly one thing; a role change happens only with permission |
| Commands.SuccessNamesTarget | src/main.rs:43 | the success message ends with the target's name and differs from the failure message |
| Commands.AllowListedOpScenario | src/main.rs:36-47 | an allow-listed author opping a user adds the role once, then reports success or the generic failure according to the platform's answer |

## Left out

- `main`: loading the `.env` file, logger setup, the `DISCORD_TOKEN` lookup, building the client and framework, registering commands and running the gateway. This is I/O and framework glue.
- `Handler` and its `ready` callback: logging only.
- Logging: the `error!` lines of `has_permission` (src/main.rs:81, 87) and the `info!` of the allow-list at start-up (src/main.rs:170) have no effect on the model's results and are not modelled.
- `get_env_var`: used only by `main`. The environment is a map from names to values, the non-Unicode case included.
- Lazy initialisation (`once_cell::Lazy`, `task::block_in_place`). The configuration is one immutable value built by `LoadConfig`. In the source each setting is computed on first use, and a bad or zero `OPERATOR_ROLE_ID` panics only when the first permitted `op`/`deop` reads it. The allow-list, a missing value or a zero user id included, is forced at start-up by the `info!` line of `main` when info logging is enabled (the default `RUST_LOG`); otherwise on the first `has_permission` that reaches the allow-list check, which an admission through the role path never does. The model reports every one of these at load time.
- Error message text. `integer_part`'s error keeps the input and the `ParseIntError` kind; the Rust message is formatted from exactly these two and its string is not modelled. Panics are modelled as `ConfigError` values.
- How the platform calls work inside (`author_member`, `roles`, `role_by_name`, `add_role`, `remove_role`). Their results are inputs. `role_by_name` searches a hash map, so its order is the guild-role sequence given as input.
- Commands.RunOp: a failing `ctx.say` (an error returned by `?`) is not modelled; every message is delivered. The same holds for Commands.RunDeop.
- Whatever poise does with a command's returned error.
- Concurrency between simultaneous commands. Each invocation is modelled on its own.
- Only short literal examples of `parse::<u64>` and `integer_part` are proved; evaluating the 18- to 20-digit literals costs the verifier too much. The bounds (2^64-1 accepted, 2^64 rejected) and the `"<digits>.<anything>"` case are covered by `U64Parse.ParseU64Meaning`, `Config.IntegerPartMeaning` and `Config.IntegerPartIgnoresFraction` for all inputs.
- build.rs: a Windows resource script, not part of this model.
