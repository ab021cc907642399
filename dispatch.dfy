/** Which direct messages reach the two verification commands
    (index.cjs:207-210, 236-237): messages from bots and from channels other
    than direct messages are dropped, then the text is matched against the
    `!email ` and `!code ` prefixes and the rest of it is trimmed. */
module Dispatch {
  import opened Text

  /** A JavaScript value as far as the strict comparison at index.cjs:208
      needs it: a number or a string. */
  datatype JsValue = JsNumber(n: int) | JsString(s: string)

  /** `ChannelType.DM`: discord.js 14 (whose `GatewayIntentBits`, `Events` and
      `ChannelType` index.cjs:2-5 imports) gives `channel.type` as a number. */
  const DM_CHANNEL: JsValue := JsNumber(1)

  /** The guard `message.channel.type !== 'DM' || message.author.bot` as
      written: it compares the numeric channel type with a string. */
  predicate IgnoredAsWritten(channelType: JsValue, fromBot: bool) {
    channelType != JsString("DM") || fromBot
  }

  /** As written, a direct message from a person is dropped like any other
      message, so neither command can ever run. */
  lemma DirectMessageIgnoredAsWritten(channelType: JsValue, fromBot: bool)
    requires channelType == DM_CHANNEL
    ensures IgnoredAsWritten(channelType, fromBot)
  {
  }

  /** The guard as evidently intended: drop what is not a direct message, or
      comes from a bot. */
  predicate Ignored(channelType: JsValue, fromBot: bool) {
    channelType != DM_CHANNEL || fromBot
  }

  datatype Command = EmailCommand(email: string) | CodeCommand(code: string) | NoCommand

  const EMAIL_PREFIX: string := "!email "
  const CODE_PREFIX: string := "!code "

  predicate StartsWith(s: string, prefix: string) {
    |prefix| <= |s| && s[..|prefix|] == prefix
  }

  /** No message starts with both prefixes: they differ in their second character. */
  lemma PrefixesExclusive(content: string)
    ensures !(StartsWith(content, EMAIL_PREFIX) && StartsWith(content, CODE_PREFIX))
  {
    if StartsWith(content, EMAIL_PREFIX) {
      assert content[1] == content[..|EMAIL_PREFIX|][1] == 'e';
      assert |CODE_PREFIX| <= |content| ==> content[..|CODE_PREFIX|][1] == 'e';
    }
  }

  /** `startsWith(prefix)` then `replace(prefix, '').trim()`: the prefix found
      at the start is its first occurrence, so the replacement drops it. The
      `!email ` test comes first. */
  function ParseCommand(content: string): (c: Command)
    ensures c.EmailCommand? <==> StartsWith(content, EMAIL_PREFIX)
    ensures c.CodeCommand? <==> StartsWith(content, CODE_PREFIX)
  {
    PrefixesExclusive(content);
    if StartsWith(content, EMAIL_PREFIX) then EmailCommand(Trim(content[|EMAIL_PREFIX|..]))
    else if StartsWith(content, CODE_PREFIX) then CodeCommand(Trim(content[|CODE_PREFIX|..]))
    else NoCommand
  }

  /** The command a message sends, with the intended guard. */
  function Route(channelType: JsValue, fromBot: bool, content: string): (c: Command)
    ensures c != NoCommand ==> channelType == DM_CHANNEL && !fromBot
  {
    if Ignored(channelType, fromBot) then NoCommand else ParseCommand(content)
  }

  /** With the intended guard, a message yields a command exactly when it is
      a person's direct message starting with one of the two prefixes. */
  lemma RouteExactly(channelType: JsValue, fromBot: bool, content: string)
    ensures Route(channelType, fromBot, content) != NoCommand <==>
      (channelType == DM_CHANNEL && !fromBot
       && (StartsWith(content, EMAIL_PREFIX) || StartsWith(content, CODE_PREFIX)))
  {
  }

  /** A person's direct message `!email <arg>` requests a code for the
      trimmed argument, and `!code <arg>` submits the trimmed argument. */
  lemma RouteCommands(arg: string)
    ensures Route(DM_CHANNEL, false, EMAIL_PREFIX + arg) == EmailCommand(Trim(arg))
    ensures Route(DM_CHANNEL, false, CODE_PREFIX + arg) == CodeCommand(Trim(arg))
  {
    assert (EMAIL_PREFIX + arg)[..|EMAIL_PREFIX|] == EMAIL_PREFIX;
    assert (EMAIL_PREFIX + arg)[|EMAIL_PREFIX|..] == arg;
    assert (CODE_PREFIX + arg)[..|CODE_PREFIX|] == CODE_PREFIX;
    assert (CODE_PREFIX + arg)[|CODE_PREFIX|..] == arg;
    assert (CODE_PREFIX + arg)[1] == 'c';
  }
}
