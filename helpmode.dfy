/** m_helpmode: user mode +h (helpop) marks a user as available for help. The
    mode handler keeps a list of the users that have it; /STATS P lists them and
    /WHOIS says so. */
module HelpMode {
  import opened ModApi

  /** The identity of a User object: the list holds pointers and compares them. */
  type UserId = nat

  /** stdalgo::erase: removes the first occurrence of `x`, if any. */
  function RemoveFirst(s: seq<UserId>, x: UserId): seq<UserId>
  {
    if s == [] then []
    else if s[0] == x then s[1..]
    else [s[0]] + RemoveFirst(s[1..], x)
  }

  /** Erasing takes out exactly one copy of `x` when there is one, and leaves the
      list alone otherwise; the other entries keep their order. */
  lemma {:induction false} RemoveFirstSplits(s: seq<UserId>, x: UserId)
    ensures x !in s ==> RemoveFirst(s, x) == s
    ensures x in s ==> exists k :: 0 <= k < |s| && s[k] == x && x !in s[..k]
                                   && RemoveFirst(s, x) == s[..k] + s[k + 1..]
  {
    if s != [] {
      RemoveFirstSplits(s[1..], x);
      if s[0] == x {
        assert s[0] == x && x !in s[..0] && RemoveFirst(s, x) == s[..0] + s[1..];
      } else if x in s[1..] {
        var k :| 0 <= k < |s[1..]| && s[1..][k] == x && x !in s[1..][..k]
                 && RemoveFirst(s[1..], x) == s[1..][..k] + s[1..][k + 1..];
        assert s[..k + 1] == [s[0]] + s[1..][..k];
        assert s[k + 2..] == s[1..][k + 1..];
        assert s[k + 1] == x && x !in s[..k + 1]
               && RemoveFirst(s, x) == s[..k + 1] + s[k + 2..];
      } else {
        assert x !in s;
      }
    }
  }

  /** Erasing removes one copy of `x` from the multiset of entries. */
  lemma {:induction false} RemoveFirstMultiset(s: seq<UserId>, x: UserId)
    ensures multiset(RemoveFirst(s, x)) == multiset(s) - multiset{x}
  {
    if s != [] {
      RemoveFirstMultiset(s[1..], x);
      assert s == [s[0]] + s[1..];
    }
  }

  predicate NoDuplicates(s: seq<UserId>)
  {
    forall i, j :: 0 <= i < j < |s| ==> s[i] != s[j]
  }

  /** HelpOp's list after a mode change on `dest` that the base handler
      answered with `accepted`. */
  function AfterModeChange(helpers: seq<UserId>, dest: UserId, adding: bool, accepted: bool): (r: seq<UserId>)
    ensures !accepted ==> r == helpers
    ensures accepted && adding ==> |r| == |helpers| + 1 && r[..|helpers|] == helpers && r[|helpers|] == dest
    ensures accepted && !adding ==> multiset(r) == multiset(helpers) - multiset{dest}
  {
    if !accepted then helpers
    else if adding then helpers + [dest]
    else (RemoveFirstMultiset(helpers, dest); RemoveFirst(helpers, dest))
  }

  /** Erasing from a duplicate-free list leaves a duplicate-free list holding
      every other entry and no copy of `x`. */
  lemma {:induction false} RemoveFirstNoDuplicates(s: seq<UserId>, x: UserId)
    requires NoDuplicates(s)
    ensures NoDuplicates(RemoveFirst(s, x))
    ensures forall u :: u in RemoveFirst(s, x) <==> u in s && u != x
  {
    if s != [] {
      var t := s[1..];
      assert NoDuplicates(t) by {
        forall i, j | 0 <= i < j < |t| ensures t[i] != t[j] {
          assert t[i] == s[i + 1] && t[j] == s[j + 1];
        }
      }
      assert s[0] !in t by {
        forall j | 0 <= j < |t| ensures t[j] != s[0] {
          assert t[j] == s[j + 1];
        }
      }
      assert s == [s[0]] + t;
      if s[0] != x {
        RemoveFirstNoDuplicates(t, x);
        var r := RemoveFirst(s, x);
        assert r == [s[0]] + RemoveFirst(t, x);
        forall i, j | 0 <= i < j < |r| ensures r[i] != r[j] {
          if i == 0 {
            assert r[j] in RemoveFirst(t, x);
          } else {
            assert r[i] == RemoveFirst(t, x)[i - 1] && r[j] == RemoveFirst(t, x)[j - 1];
          }
        }
      }
    }
  }

  /** If the base handler accepts exactly the changes that flip the mode (the
      way SimpleUserMode behaves), the list stays free of duplicates and holds
      exactly the users that have +h. */
  lemma HelpersTrackMode(helpers: seq<UserId>, modeSet: set<UserId>, dest: UserId, adding: bool)
    requires NoDuplicates(helpers)
    requires forall u :: u in helpers <==> u in modeSet
    ensures var after := AfterModeChange(helpers, dest, adding, adding != (dest in modeSet));
            var modeAfter := if adding then modeSet + {dest} else modeSet - {dest};
            NoDuplicates(after) && forall u :: u in after <==> u in modeAfter
  {
    var accepted := adding != (dest in modeSet);
    if accepted && !adding {
      RemoveFirstNoDuplicates(helpers, dest);
    } else if accepted {
      var after := helpers + [dest];
      forall i, j | 0 <= i < j < |after| ensures after[i] != after[j] {
        if j == |helpers| {
          assert after[i] == helpers[i];
        } else {
          assert after[i] == helpers[i] && after[j] == helpers[j];
        }
      }
    }
  }

  /** The helpop mode handler and the list of helpers it maintains. */
  class HelpOp {
    var helpers: seq<UserId>

    constructor ()
      ensures helpers == []
    {
      helpers := [];
    }

    /** OnModeChange: when the base handler accepts the change, a user gaining
        +h is appended and a user losing it is erased; the answer is the base
        handler's. */
    method OnModeChange(dest: UserId, adding: bool, baseAccepts: bool) returns (accepted: bool)
      modifies this
      ensures accepted == baseAccepts
      ensures helpers == AfterModeChange(old(helpers), dest, adding, baseAccepts)
    {
      if !baseAccepts {
        return false;
      }
      if adding {
        helpers := helpers + [dest];
      } else {
        helpers := RemoveFirst(helpers, dest);
      }
      return true;
    }
  }

  /** What /STATS P reads of a helper, with durations and times already
      formatted. `idle` is present exactly for local users. */
  datatype Away = Away(period: string, since: string, message: string)
  datatype Idle = Idle(period: string, since: string)
  datatype UserState = UserState(
    nick: string,
    realUserHost: string,
    onServicesServer: bool,
    isOper: bool,
    hideoper: bool,
    away: Option<Away>,
    idle: Option<Idle>)

  /** A helper is listed unless it is on a services server, or it is an oper
      that is not hidden (hiding only counts when ignorehideoper is set). */
  predicate IsListed(u: UserState, ignorehideoper: bool)
  {
    !u.onServicesServer && (!u.isOper || (ignorehideoper && u.hideoper))
  }

  /** The helpers /STATS P lists, in list order. */
  function ListedHelpers(helpers: seq<UserId>, users: UserId -> UserState, ignorehideoper: bool): seq<UserId>
  {
    if helpers == [] then []
    else ListedHelpers(helpers[..|helpers| - 1], users, ignorehideoper)
         + (var h := helpers[|helpers| - 1]; if IsListed(users(h), ignorehideoper) then [h] else [])
  }

  /** Filtering distributes over concatenation, so the listed helpers keep the
      order they have in the list. */
  lemma {:induction false} ListedHelpersAppend(a: seq<UserId>, b: seq<UserId>, users: UserId -> UserState, ignorehideoper: bool)
    ensures ListedHelpers(a + b, users, ignorehideoper)
         == ListedHelpers(a, users, ignorehideoper) + ListedHelpers(b, users, ignorehideoper)
    decreases |b|
  {
    if b == [] {
      assert a + b == a;
    } else {
      var b' := b[..|b| - 1];
      assert (a + b)[..|a + b| - 1] == a + b';
      assert (a + b)[|a + b| - 1] == b[|b| - 1];
      ListedHelpersAppend(a, b', users, ignorehideoper);
    }
  }

  /** A user is listed iff it is in the list and passes the filter. */
  lemma {:induction false} ListedHelpersMembers(helpers: seq<UserId>, users: UserId -> UserState, ignorehideoper: bool, u: UserId)
    ensures u in ListedHelpers(helpers, users, ignorehideoper) <==> u in helpers && IsListed(users(u), ignorehideoper)
    ensures |ListedHelpers(helpers, users, ignorehideoper)| <= |helpers|
    decreases |helpers|
  {
    if helpers != [] {
      var init := helpers[..|helpers| - 1];
      ListedHelpersMembers(init, users, ignorehideoper, u);
      assert helpers == init + [helpers[|helpers| - 1]];
    }
  }

  /** The away part of the row suffix. */
  function AwayPart(a: Away): string
  {
    ": away for " + a.period + " [since " + a.since + "] (" + a.message + ")"
  }

  /** The idle part of the row suffix, after separator `sep`. */
  function IdlePart(sep: char, i: Idle): string
  {
    [sep] + " idle for " + i.period + " [since " + i.since + "]"
  }

  /** The row suffix: the away part when away, then the idle part for a local
      user, which opens with ':' when there is no away part and ',' after one. */
  function Extra(u: UserState): string
  {
    (if u.away.Some? then AwayPart(u.away.value) else "")
    + (if u.idle.Some? then IdlePart(if u.away.None? then ':' else ',', u.idle.value) else "")
  }

  /** The separators of the suffix: it is empty for a user neither away nor
      local, and otherwise begins with ':'; the idle part follows the away part
      after a ','. */
  lemma SuffixSeparators(u: UserState)
    ensures Extra(u) == [] <==> u.away.None? && u.idle.None?
    ensures Extra(u) != [] ==> Extra(u)[0] == ':'
    ensures u.away.Some? && u.idle.Some? ==>
      Extra(u)[|AwayPart(u.away.value)|] == ',' && StartsWith(Extra(u), AwayPart(u.away.value))
  {
  }

  /** The row added for one listed helper: its nick in bold, its real
      user@host, and the suffix. */
  function Row(u: UserState): string
  {
    "\U{2}" + u.nick + "\U{2} (" + u.realUserHost + ")" + Extra(u)
  }

  /** OnStats: for symbol 'P', one row per listed helper in list order; other
      symbols add nothing. The core always lists the opers afterwards. */
  method OnStats(symbol: char, helpop: HelpOp, users: UserId -> UserState, ignorehideoper: bool)
    returns (res: ModResult, rows: seq<string>)
    ensures res == PassThru
    ensures symbol != 'P' ==> rows == []
    ensures symbol == 'P' ==>
      var listed := ListedHelpers(helpop.helpers, users, ignorehideoper);
      |rows| == |listed| && forall k :: 0 <= k < |rows| ==> rows[k] == Row(users(listed[k]))
  {
    rows := [];
    if symbol != 'P' {
      return PassThru, rows;
    }

    var helpers := helpop.helpers;
    for n := 0 to |helpers|
      invariant var listed := ListedHelpers(helpers[..n], users, ignorehideoper);
        |rows| == |listed| && forall k :: 0 <= k < |rows| ==> rows[k] == Row(users(listed[k]))
    {
      assert helpers[..n + 1][..n] == helpers[..n];
      var helper := users(helpers[n]);
      if helper.onServicesServer {
        continue;
      }
      if helper.isOper && (!ignorehideoper || !helper.hideoper) {
        continue;
      }

      var extra := "";
      if helper.away.Some? {
        extra := AwayPart(helper.away.value);
      }
      if helper.idle.Some? {
        extra := extra + IdlePart(if extra == [] then ':' else ',', helper.idle.value);
      }
      assert extra == Extra(helper);

      rows := rows + ["\U{2}" + helper.nick + "\U{2} (" + helper.realUserHost + ")" + extra];
    }
    assert helpers[..|helpers|] == helpers;
    return PassThru, rows;
  }

  /** Whois reply numerics this module sends. */
  datatype WhoisNumeric = RplWhoisHelpop
  datatype WhoisLine = WhoisLine(numeric: WhoisNumeric, text: string)

  /** OnWhois: the "available for help" line is sent exactly when the target
      has +h. */
  function OnWhois(targetHasHelpop: bool): (lines: seq<WhoisLine>)
    ensures |lines| <= 1
    ensures lines != [] <==> targetHasHelpop
    ensures lines != [] ==> lines[0] == WhoisLine(RplWhoisHelpop, "is available for help.")
  {
    if targetHasHelpop then [WhoisLine(RplWhoisHelpop, "is available for help.")] else []
  }
}
