# InspIRCd module hooks: password forwarding, helpop and no-CTCP

A Dafny model of three InspIRCd modules.

- **m_passforward** (`passforward.dfy`, module `PassForward`). It expands the configured templates
  `forwardmsg` and `forwardcmd`. The placeholders are `$nickrequired`, `$nick`, `$user` and `$pass`.
  It then decides whether to feed the expanded lines to the command parser on behalf of the user:
  after connecting (the connect password), or after a `NICK` command with a second parameter.
  `FormatStr` is an index loop that appends to a caller's buffer. It is proved against the recursive
  specification `Expand`, and the placeholder rules are proved as lemmas about `Expand`.
- **m_helpmode** (`helpmode.dfy`, module `HelpMode`). The `HelpOp` class keeps the `helpers` list in
  step with user mode `+h`. `OnStats` is a loop that builds one `/STATS P` row per listed helper.
  `OnWhois` adds the "is available for help." line.
- **m_noctcp** (`noctcp.dfy`, module `NoCtcp`). `OnUserPreMessage` decides whether a message to a
  channel is a CTCP that channel mode `+C` blocks. `On005Numeric` appends `C` to the `EXTBAN`
  ISUPPORT token in the token map, which is a field of the `ISupportTokens` class.
- `modapi.dfy` (module `ModApi`) holds `ModResult` with its `Check(def)` and a string prefix test.

The calls into the rest of the server become inputs or outputs:

- The module settings (`nick`, `forwardmsg`, `cmd`, `ignorehideoper`) are parameters.
- The services lookup (`Users.Find` plus `IsService`) is a `ServicesLookup` value.
- The connect-class password and "already logged in" are parameters.
- Lines given to `Parser.ProcessBuffer` are returned as a sequence.
- The rows of `/STATS P` and the whois and error numerics are returned as sequences.
- A helper's state is a function from user identity to `UserState`. Its durations and times come
  already formatted, because `Duration::ToString`, `InspIRCd::TimeString` and the clock are not modelled.
- The base `SimpleUserMode::OnModeChange` answer, the `CheckExemption` answer and the channel's
  extban status for the user are oracle inputs.

## Model

| member | source | states |
|---|---|---|
| PassForward.FormatStr | src/modules/m_passforward.cpp:51-84 | the loop appends exactly `Expand(format)` to the caller's buffer, which stays a prefix of the result |
| PassForward.LiteralPrefix | src/modules/m_passforward.cpp:53-83 | text without `$` is copied verbatim and the rest of the format expands independently after it |
| PassForward.NoDollarVerbatim | src/modules/m_passforward.cpp:53-83 | a format with no `$` expands to itself, character for character |
| PassForward.NickRequiredFirst | src/modules/m_passforward.cpp:58-62 | `$nickrequired` becomes the configured nick and the scan resumes 13 characters on; it is never read as `$nick` + "required" |
| PassForward.NickExpands | src/modules/m_passforward.cpp:63-67 | `$nick` not followed by "required" becomes the user's nick |
| PassForward.UserExpands | src/modules/m_passforward.cpp:68-72 | `$user` becomes the user's ident |
| PassForward.PassNotRescanned | src/modules/m_passforward.cpp:73-77 | `$pass` becomes the password verbatim, followed by the expansion of the rest of the format; placeholders inside the password are not expanded |
| PassForward.ShortFormatVerbatim | src/modules/m_passforward.cpp:56-79 | a format shorter than five characters, such as a lone `$` or `$nic`, is copied literally |
| PassForward.PlaceholderStopsAtDollar | src/modules/m_passforward.cpp:58-73 | a placeholder test at some position never reaches into a following `$`, so appending text that starts with `$` changes no placeholder match |
| PassForward.TruncatedPlaceholderTail | src/modules/m_passforward.cpp:56-79 | for any format, a tail starting with `$` and shorter than five characters (such as `$nic`) is copied literally after the expansion of the rest |
| PassForward.TrailingDollar | src/modules/m_passforward.cpp:78-79 | a `$` at the end of any format is emitted literally after the expansion of what precedes it |
| PassForward.Forwarded | src/modules/m_passforward.cpp:111-131 | nothing is forwarded iff a services nick is required and is absent or not on a services server; otherwise the expanded message (only when configured) is followed by the expanded command |
| PassForward.ForwardPass | src/modules/m_passforward.cpp:111-131 | the buffers handed to the parser are exactly `Forwarded`, built in a buffer cleared between the two |
| PassForward.OnPostConnect | src/modules/m_passforward.cpp:86-103 | forwards the connect password iff the user is local, has a password, the connect class has none and no account is set; otherwise forwards nothing |
| PassForward.OnPostCommand | src/modules/m_passforward.cpp:105-109 | forwards `parameters[1]` only after `NICK` with more than one parameter |
| HelpMode.HelpOp.OnModeChange | src/modules/m_helpmode.cpp:36-47 | answers the base handler's verdict; a rejected change leaves `helpers` unchanged, an accepted add appends `dest`, an accepted removal erases it |
| HelpMode.AfterModeChange | src/modules/m_helpmode.cpp:36-47 | the new list: unchanged when rejected, old list plus `dest` at the end when adding, one copy of `dest` fewer when removing |
| HelpMode.RemoveFirstSplits | src/modules/m_helpmode.cpp:44 | erasing removes the first occurrence of `dest` and keeps the order of the rest; an absent user leaves the list unchanged |
| HelpMode.RemoveFirstMultiset | src/modules/m_helpmode.cpp:44 | erasing removes exactly one copy of `dest` from the entries |
| HelpMode.RemoveFirstNoDuplicates | src/modules/m_helpmode.cpp:44 | erasing from a duplicate-free list gives a duplicate-free list of all other entries |
| HelpMode.HelpersTrackMode | src/modules/m_helpmode.cpp:36-47 | when the base handler accepts exactly the changes that flip `+h`, the list stays duplicate-free and holds exactly the users with `+h` |
| HelpMode.ListedHelpersMembers | src/modules/m_helpmode.cpp:81-87 | a helper is listed iff it is in the list, not on a services server, and either not an oper or (with `ignorehideoper`) hidden; never more rows than helpers |
| HelpMode.ListedHelpersAppend | src/modules/m_helpmode.cpp:81-107 | listing distributes over concatenation, so rows follow the order of `helpers` |
| HelpMode.SuffixSeparators | src/modules/m_helpmode.cpp:89-105 | the suffix is empty iff the helper is neither away nor local, otherwise it begins with `:`; after an away part the idle part begins with `,` |
| HelpMode.OnStats | src/modules/m_helpmode.cpp:76-112 | always PASSTHRU; no rows for a symbol other than `P`; for `P` exactly one row per listed helper of the `HelpOp` list, in list order |
| HelpMode.OnWhois | src/modules/m_helpmode.cpp:114-118 | the helpop line is sent exactly when the target has `+h`, and at most once |
| NoCtcp.OnUserPreMessage | src/modules/m_noctcp.cpp:42-61 | DENY is the only non-PASSTHRU result; DENY iff a local user sends a non-ACTION CTCP to a channel, is not exempt, and the extban check with default "+C not set" fails; ERR_NOCTCPALLOWED naming the channel is sent iff DENY |
| NoCtcp.ActionNeverBlocked | src/modules/m_noctcp.cpp:47 | text starting with `\1ACTION `, or equal to `\1ACTION\1` or `\1ACTION`, always passes |
| NoCtcp.ActionNeedsSeparator | src/modules/m_noctcp.cpp:47 | `\1ACTION` followed by anything other than a space, a lone `\1` or nothing (such as `\1ACTIONX`) is a blockable CTCP |
| NoCtcp.PlainChannelPasses | src/modules/m_noctcp.cpp:54-58 | without `+C` and without an extban entry every message passes |
| NoCtcp.NoCtcpChannelDenies | src/modules/m_noctcp.cpp:44-58 | in a `+C` channel, with no exemption and no extban entry, a local user's message is denied iff it is a blockable CTCP |
| NoCtcp.WithExtBanC | src/modules/m_noctcp.cpp:63-66 | `EXTBAN` is present afterwards and its value is the old value (empty if absent) followed by `C`; all other tokens are unchanged |
| NoCtcp.ContributeTwice | src/modules/m_noctcp.cpp:63-66 | two contributions append two `C`s |
| NoCtcp.On005Numeric | src/modules/m_noctcp.cpp:63-66 | the token map is updated in place to `WithExtBanC` of its old contents |

## Left out

- The ISUPPORT builder in src/coremods/core_info/core_info.h. Only the declarations of `ISupportManager` (`AppendValue`, `BuildNumerics`, `Build`, `SendTo`) are in that header, and their bodies are not part of this model. Line packing, token limits and value escaping are therefore not modelled. The command classes declared there are dispatch scaffolding.
- `ReadConfig` in each module is configuration reading. Its results are parameters here.
- `SimpleUserMode::OnModeChange` is not part of this model. Its answer is an input. `HelpersTrackMode` assumes it accepts exactly the changes that flip the mode.
- `stdalgo::erase` is not part of this model. It is modelled as removing the first occurrence of the value, if any.
- `ModResult::check` is not part of this model. `ModResult.Check(def)` gives `def` for PASSTHRU and "is ALLOW" otherwise.
- The extban and exemption machinery (`GetExtBanStatus`, `CheckExemption::Call`) is not modelled. Their answers are inputs.
- Durations, timestamps and `INSP_FORMAT` are not modelled. They are given as already-formatted strings, and the row text is built by string concatenation.
- The sending of lines (`ProcessBuffer`, `AddGenericRow`, `SendLine`, `WriteNumeric`) is modelled as returning the lines, not as effects on the server.
- PassForward.ForwardPass: both templates are expanded with the same nick and ident. If running the first line through the parser changed the user's nick or ident, the source would expand the second line with the new values; the model assumes they do not change between the two expansions.
- Numeric codes are symbolic (`ErrNoCtcpAllowed`, `RplWhoisHelpop`). Their numeric values are defined outside these files.
- PassForward.FormatStr: the `unsigned int` loop index is unbounded here. Formats longer than 2^32 characters are not modelled.
- NoCtcp.ActionNeverBlocked: `strncmp` is modelled as a prefix test. This is exact for text without NUL bytes, which IRC messages cannot carry.
- Module constructors, `GetVersion` and `MODULE_INIT` are registration boilerplate.
