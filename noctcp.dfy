/** m_noctcp: channel mode +C blocks CTCPs (other than ACTION) sent to a
    channel by local users, and the module advertises extban C in ISUPPORT. */
module NoCtcp {
  import opened ModApi

  const CtcpMarker: char := '\U{1}'
  const ActionPrefix: string := "\U{1}ACTION "
  const ActionBare: string := "\U{1}ACTION"
  const ActionClosed: string := "\U{1}ACTION\U{1}"

  /** A channel as the hook sees it: its name and whether +C is set. */
  datatype Channel = Channel(name: string, noctcp: bool)

  /** Where a message goes (MessageTarget::TYPE_CHANNEL, TYPE_USER, TYPE_SERVER). */
  datatype MessageTarget = ToChannel(channel: Channel) | ToUser(nick: string) | ToServer(mask: string)

  /** Numerics the module sends to the sender. */
  datatype NumericCode = ErrNoCtcpAllowed
  datatype Numeric = Numeric(code: NumericCode, params: seq<string>)

  /** The pre-message verdict and the numerics written to the sender. */
  datatype Verdict = Verdict(result: ModResult, sent: seq<Numeric>)

  /** An ACTION (/me): text that starts with "\1ACTION " or is exactly
      "\1ACTION\1" or "\1ACTION". */
  predicate IsAction(text: string)
  {
    StartsWith(text, ActionPrefix) || text == ActionClosed || text == ActionBare
  }

  /** A CTCP that +C blocks: non-empty text whose first byte is \1 and that is
      not an ACTION. */
  predicate IsBlockableCtcp(text: string)
  {
    text != [] && text[0] == CtcpMarker && !IsAction(text)
  }

  /** OnUserPreMessage: a local user's CTCP to a channel is denied, and
      ERR_NOCTCPALLOWED names the channel, unless the user is exempt or the
      extban check allows it; the check's default is "+C is not set".
      `exemption` is CheckExemption's answer for "noctcp" and `extban` the
      channel's extban status for the user; both are only consulted for a
      CTCP from a local user to a channel. */
  function OnUserPreMessage(senderIsLocal: bool, target: MessageTarget, text: string,
                            exemption: ModResult, extban: ModResult): (v: Verdict)
    ensures v.result == PassThru || v.result == Deny
    ensures v.result == Deny <==>
      target.ToChannel? && senderIsLocal && IsBlockableCtcp(text)
      && exemption != Allow && !extban.Check(!target.channel.noctcp)
    ensures v.sent == if v.result == Deny
                      then [Numeric(ErrNoCtcpAllowed, [target.channel.name, "Can't send CTCP to channel (+C set)"])]
                      else []
  {
    if target.ToChannel? && senderIsLocal then
      var c := target.channel;
      if text == [] || text[0] != CtcpMarker || StartsWith(text, ActionPrefix)
         || text == ActionClosed || text == ActionBare then
        Verdict(PassThru, [])
      else if exemption == Allow then
        Verdict(PassThru, [])
      else if !extban.Check(!c.noctcp) then
        Verdict(Deny, [Numeric(ErrNoCtcpAllowed, [c.name, "Can't send CTCP to channel (+C set)"])])
      else
        Verdict(PassThru, [])
    else
      Verdict(PassThru, [])
  }

  /** An ACTION is never blocked, whatever the channel modes and extbans. */
  lemma ActionNeverBlocked(senderIsLocal: bool, target: MessageTarget, rest: string,
                           exemption: ModResult, extban: ModResult)
    ensures OnUserPreMessage(senderIsLocal, target, ActionPrefix + rest, exemption, extban).result == PassThru
    ensures OnUserPreMessage(senderIsLocal, target, ActionBare, exemption, extban).result == PassThru
    ensures OnUserPreMessage(senderIsLocal, target, ActionClosed, exemption, extban).result == PassThru
  {
  }

  /** "\1ACTIONX" is not an ACTION: without a space (or a closing \1, or the
      end of the text) after the word, it is an ordinary CTCP and +C blocks it. */
  lemma ActionNeedsSeparator(rest: string)
    requires rest != [] ==> rest[0] != ' ' && rest != [CtcpMarker]
    ensures IsBlockableCtcp(ActionBare + rest) <==> rest != []
  {
    var t := ActionBare + rest;
    assert t[0] == CtcpMarker;
    if rest != [] {
      if |t| >= |ActionPrefix| {
        assert t[|ActionBare|] == rest[0];
      }
      assert t != ActionClosed by {
        if |t| == |ActionClosed| {
          assert rest == t[|ActionBare|..];
        }
      }
    }
  }

  /** In a channel without +C, with no extban entry for the user, every
      message passes. */
  lemma PlainChannelPasses(senderIsLocal: bool, name: string, text: string, exemption: ModResult)
    ensures OnUserPreMessage(senderIsLocal, ToChannel(Channel(name, false)), text, exemption, PassThru).result == PassThru
  {
  }

  /** In a +C channel, with no exemption and no extban entry, a local user's
      CTCP is denied and only that. */
  lemma NoCtcpChannelDenies(name: string, text: string)
    ensures OnUserPreMessage(true, ToChannel(Channel(name, true)), text, PassThru, PassThru).result == Deny
            <==> IsBlockableCtcp(text)
  {
  }

  /** ISUPPORT tokens under construction: a map from token name to value
      (the empty value stands for a token without one). */
  class ISupportTokens {
    var tokens: map<string, string>

    constructor (initial: map<string, string>)
      ensures tokens == initial
    {
      tokens := initial;
    }
  }

  /** The tokens after this module's contribution: "C" appended to the value
      of EXTBAN, which is created empty first if missing. */
  function WithExtBanC(tokens: map<string, string>): (r: map<string, string>)
    ensures r.Keys == tokens.Keys + {"EXTBAN"}
    ensures r["EXTBAN"] == (if "EXTBAN" in tokens then tokens["EXTBAN"] else "") + "C"
    ensures forall name :: name in tokens && name != "EXTBAN" ==> r[name] == tokens[name]
  {
    tokens["EXTBAN" := (if "EXTBAN" in tokens then tokens["EXTBAN"] else "") + "C"]
  }

  /** Contributing twice appends "C" twice: the hook is not idempotent. */
  lemma ContributeTwice(tokens: map<string, string>)
    ensures WithExtBanC(WithExtBanC(tokens))["EXTBAN"]
         == (if "EXTBAN" in tokens then tokens["EXTBAN"] else "") + "CC"
  {
  }

  /** On005Numeric: edits the EXTBAN entry of the token map in place. */
  method On005Numeric(t: ISupportTokens)
    modifies t
    ensures t.tokens == WithExtBanC(old(t.tokens))
  {
    var current := if "EXTBAN" in t.tokens then t.tokens["EXTBAN"] else "";
    t.tokens := t.tokens["EXTBAN" := current + ['C']];
  }
}
