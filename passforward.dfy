/** m_passforward: forwards the password a user connected with (or gave to NICK)
    to a services pseudoclient such as NickServ, by expanding two configured
    command templates and feeding them to the command parser as if the user had
    sent them. */
module PassForward {
  import opened ModApi

  /** The <passforward> settings: the services nick that must be present, the
      optional notice sent first, and the command that carries the password. */
  datatype Settings = Settings(nickrequired: string, forwardmsg: string, forwardcmd: string)

  /** The parts of a local user that the templates can mention. */
  datatype LocalUser = LocalUser(nick: string, ident: string, password: string)

  /** A user as seen by OnPostConnect: only local users are handled. */
  datatype ConnectedUser = Remote | Local(local: LocalUser)

  /** Outcome of looking up `nickrequired`: absent, or present and on a server
      that is (or is not) a services server. */
  datatype ServicesLookup = NotFound | Found(onServicesServer: bool)

  const NickRequiredTag: string := "$nickrequired"
  const NickTag: string := "$nick"
  const UserTag: string := "$user"
  const PassTag: string := "$pass"

  /** The text FormatStr appends for `format`. Placeholders are tried longest
      first; the scan resumes after the placeholder in `format`, so substituted
      text is never scanned again; any other `$` is copied as it is. */
  function Expand(nickrequired: string, user: LocalUser, format: string, pass: string): string
    decreases |format|
  {
    if format == [] then []
    else if format[0] == '$' then
      if StartsWith(format, NickRequiredTag) then
        nickrequired + Expand(nickrequired, user, format[13..], pass)
      else if StartsWith(format, NickTag) then
        user.nick + Expand(nickrequired, user, format[5..], pass)
      else if StartsWith(format, UserTag) then
        user.ident + Expand(nickrequired, user, format[5..], pass)
      else if StartsWith(format, PassTag) then
        pass + Expand(nickrequired, user, format[5..], pass)
      else
        [format[0]] + Expand(nickrequired, user, format[1..], pass)
    else
      [format[0]] + Expand(nickrequired, user, format[1..], pass)
  }

  /** FormatStr: scans `format` left to right and appends its expansion to the
      caller's buffer `result`, which is kept as a prefix. */
  method FormatStr(nickrequired: string, user: LocalUser, format: string, pass: string, result: string)
    returns (r: string)
    ensures r == result + Expand(nickrequired, user, format, pass)
    ensures StartsWith(r, result)
  {
    r := result;
    var i := 0;
    while i < |format|
      invariant 0 <= i <= |format|
      invariant r + Expand(nickrequired, user, format[i..], pass)
             == result + Expand(nickrequired, user, format, pass)
    {
      ghost var rest := format[i..];
      var c := format[i];
      if c == '$' {
        if StartsWith(format[i..], NickRequiredTag) {
          assert rest[13..] == format[i + 13..];
          r := r + nickrequired;
          i := i + 12;
        } else if StartsWith(format[i..], NickTag) {
          assert rest[5..] == format[i + 5..];
          r := r + user.nick;
          i := i + 4;
        } else if StartsWith(format[i..], UserTag) {
          assert rest[5..] == format[i + 5..];
          r := r + user.ident;
          i := i + 4;
        } else if StartsWith(format[i..], PassTag) {
          assert rest[5..] == format[i + 5..];
          r := r + pass;
          i := i + 4;
        } else {
          assert rest[1..] == format[i + 1..];
          r := r + [c];
        }
      } else {
        assert rest[1..] == format[i + 1..];
        r := r + [c];
      }
      i := i + 1;
    }
    assert format[i..] == [];
  }

  /** Text without `$` is inserted verbatim and the rest of the format expands
      on its own after it. */
  lemma {:induction false} LiteralPrefix(nickrequired: string, user: LocalUser, lit: string, rest: string, pass: string)
    requires '$' !in lit
    ensures Expand(nickrequired, user, lit + rest, pass) == lit + Expand(nickrequired, user, rest, pass)
    decreases |lit|
  {
    if lit != [] {
      var f := lit + rest;
      assert f[0] == lit[0] && lit[0] != '$';
      assert f[1..] == lit[1..] + rest;
      assert Expand(nickrequired, user, f, pass) == [lit[0]] + Expand(nickrequired, user, lit[1..] + rest, pass);
      LiteralPrefix(nickrequired, user, lit[1..], rest, pass);
      assert [lit[0]] + lit[1..] == lit;
    } else {
      assert lit + rest == rest;
    }
  }

  /** A format without `$` expands to itself, character for character. */
  lemma NoDollarVerbatim(nickrequired: string, user: LocalUser, format: string, pass: string)
    requires '$' !in format
    ensures Expand(nickrequired, user, format, pass) == format
  {
    LiteralPrefix(nickrequired, user, format, [], pass);
    assert format + [] == format;
  }

  /** `$nickrequired` is tested before `$nick`: it becomes the configured nick,
      never the user's nick followed by "required". */
  lemma NickRequiredFirst(nickrequired: string, user: LocalUser, rest: string, pass: string)
    ensures Expand(nickrequired, user, NickRequiredTag + rest, pass)
         == nickrequired + Expand(nickrequired, user, rest, pass)
  {
  }

  /** `$nick` not followed by "required" becomes the user's nick. */
  lemma NickExpands(nickrequired: string, user: LocalUser, rest: string, pass: string)
    requires !StartsWith(rest, "required")
    ensures Expand(nickrequired, user, NickTag + rest, pass) == user.nick + Expand(nickrequired, user, rest, pass)
  {
  }

  /** `$user` becomes the user's ident. */
  lemma UserExpands(nickrequired: string, user: LocalUser, rest: string, pass: string)
    ensures Expand(nickrequired, user, UserTag + rest, pass) == user.ident + Expand(nickrequired, user, rest, pass)
  {
    var f := UserTag + rest;
    assert f[..5] == UserTag;
    assert f[5..] == rest;
    assert f[1] == 'u';
  }

  /** `$pass` becomes the password exactly as given: a password that itself
      contains `$nick` or `$pass` is not expanded again. */
  lemma PassNotRescanned(nickrequired: string, user: LocalUser, rest: string, pass: string)
    ensures Expand(nickrequired, user, PassTag + rest, pass) == pass + Expand(nickrequired, user, rest, pass)
  {
    var f := PassTag + rest;
    assert f[..5] == PassTag;
    assert f[5..] == rest;
    assert f[1] == 'p';
  }

  /** A format shorter than any placeholder, such as a lone `$` or a truncated
      `$nic`, is copied literally. */
  lemma {:induction false} ShortFormatVerbatim(nickrequired: string, user: LocalUser, format: string, pass: string)
    requires |format| < |NickTag|
    ensures Expand(nickrequired, user, format, pass) == format
    decreases |format|
  {
    if format != [] {
      ShortFormatVerbatim(nickrequired, user, format[1..], pass);
    }
  }

  /** A placeholder cannot run into a `$` that follows it: after its first
      character a placeholder holds no `$`, so `f + t` with `t` starting with
      `$` begins with the placeholder exactly when `f` does. */
  lemma PlaceholderStopsAtDollar(f: string, t: string, tag: string)
    requires f != [] && t != [] && t[0] == '$'
    requires tag != [] && '$' !in tag[1..]
    ensures StartsWith(f + t, tag) <==> StartsWith(f, tag)
  {
    if |tag| <= |f| {
      assert (f + t)[..|tag|] == f[..|tag|];
    } else if |tag| <= |f + t| {
      assert (f + t)[..|tag|][|f|] == '$';
      assert tag[1..][|f| - 1] == tag[|f|];
    }
  }

  /** A tail that starts with `$` and is shorter than any placeholder, such as
      a final `$` or a truncated `$nic`, is copied literally after the
      expansion of whatever precedes it. */
  lemma {:induction false} TruncatedPlaceholderTail(nickrequired: string, user: LocalUser, f: string, t: string, pass: string)
    requires t != [] && t[0] == '$' && |t| < |NickTag|
    ensures Expand(nickrequired, user, f + t, pass) == Expand(nickrequired, user, f, pass) + t
    decreases |f|
  {
    if f == [] {
      assert f + t == t;
      ShortFormatVerbatim(nickrequired, user, t, pass);
    } else {
      var g := f + t;
      assert g[0] == f[0];
      var n := if f[0] != '$' then 1
               else if StartsWith(f, NickRequiredTag) then 13
               else if StartsWith(f, NickTag) || StartsWith(f, UserTag) || StartsWith(f, PassTag) then 5
               else 1;
      if f[0] == '$' {
        PlaceholderStopsAtDollar(f, t, NickRequiredTag);
        PlaceholderStopsAtDollar(f, t, NickTag);
        PlaceholderStopsAtDollar(f, t, UserTag);
        PlaceholderStopsAtDollar(f, t, PassTag);
      }
      assert g[n..] == f[n..] + t;
      TruncatedPlaceholderTail(nickrequired, user, f[n..], t, pass);
    }
  }

  /** A `$` at the end of any format is emitted literally. */
  lemma TrailingDollar(nickrequired: string, user: LocalUser, f: string, pass: string)
    ensures Expand(nickrequired, user, f + "$", pass) == Expand(nickrequired, user, f, pass) + "$"
  {
    TruncatedPlaceholderTail(nickrequired, user, f, "$", pass);
  }

  /** True when forwarding may go ahead: no services nick is required, or it
      is online on a services server. */
  predicate ServicesReady(settings: Settings, lookup: ServicesLookup)
  {
    settings.nickrequired == [] || lookup == Found(true)
  }

  /** The buffers ForwardPass hands to the command parser, in order. */
  function Forwarded(settings: Settings, user: LocalUser, pass: string, lookup: ServicesLookup): (lines: seq<string>)
    ensures lines == [] <==> !ServicesReady(settings, lookup)
    ensures lines != [] ==>
      lines[|lines| - 1] == Expand(settings.nickrequired, user, settings.forwardcmd, pass)
    ensures lines != [] ==> |lines| == if settings.forwardmsg == [] then 1 else 2
    ensures |lines| == 2 ==> lines[0] == Expand(settings.nickrequired, user, settings.forwardmsg, pass)
  {
    if !ServicesReady(settings, lookup) then []
    else
      (if settings.forwardmsg != [] then [Expand(settings.nickrequired, user, settings.forwardmsg, pass)] else [])
      + [Expand(settings.nickrequired, user, settings.forwardcmd, pass)]
  }

  /** ForwardPass: checks for the services nick, then builds the notice (if one
      is configured) and the password command in one buffer, cleared between
      the two, and returns what was passed to Parser.ProcessBuffer. */
  method ForwardPass(settings: Settings, user: LocalUser, pass: string, lookup: ServicesLookup)
    returns (processed: seq<string>)
    ensures processed == Forwarded(settings, user, pass, lookup)
  {
    processed := [];
    if settings.nickrequired != [] {
      if !lookup.Found? || !lookup.onServicesServer {
        return;
      }
    }

    var tmp := "";
    if settings.forwardmsg != [] {
      tmp := FormatStr(settings.nickrequired, user, settings.forwardmsg, pass, tmp);
      processed := processed + [tmp];
      tmp := "";
    }

    tmp := FormatStr(settings.nickrequired, user, settings.forwardcmd, pass, tmp);
    processed := processed + [tmp];
  }

  /** The conditions under which OnPostConnect forwards the connect password:
      a local user with a password, a connect class without one, and no
      account already set (for instance by SASL). */
  predicate ForwardsOnConnect(ruser: ConnectedUser, classPassword: string, loggedIn: bool)
  {
    ruser.Local? && ruser.local.password != [] && classPassword == [] && !loggedIn
  }

  /** OnPostConnect: forwards the connect password, or does nothing. */
  method OnPostConnect(settings: Settings, ruser: ConnectedUser, classPassword: string, loggedIn: bool,
                       lookup: ServicesLookup)
    returns (processed: seq<string>)
    ensures processed != [] ==> ForwardsOnConnect(ruser, classPassword, loggedIn)
    ensures !ForwardsOnConnect(ruser, classPassword, loggedIn) ==> processed == []
    ensures ForwardsOnConnect(ruser, classPassword, loggedIn) ==>
      processed == Forwarded(settings, ruser.local, ruser.local.password, lookup)
  {
    processed := [];
    if !ruser.Local? || ruser.local.password == [] {
      return;
    }
    if classPassword != [] {
      return;
    }
    if loggedIn {
      return;
    }
    processed := ForwardPass(settings, ruser.local, ruser.local.password, lookup);
  }

  /** OnPostCommand: after a NICK command with at least two parameters, the
      second parameter is forwarded as the password. */
  method OnPostCommand(settings: Settings, command: string, parameters: seq<string>, user: LocalUser,
                       lookup: ServicesLookup)
    returns (processed: seq<string>)
    ensures processed != [] ==> command == "NICK" && |parameters| > 1
    ensures command == "NICK" && |parameters| > 1 ==>
      processed == Forwarded(settings, user, parameters[1], lookup)
  {
    processed := [];
    if command == "NICK" && |parameters| > 1 {
      processed := ForwardPass(settings, user, parameters[1], lookup);
    }
  }
}
