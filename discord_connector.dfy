/**
 * DiscordConnector: the Discord listener. It forwards Discord messages that
 * mention the bot to Slack, and mirrors deletions, edits and reactions of
 * forwarded messages. Calls into the Slack session are returned as a
 * sequence of `SlackCall`s; what Slack answers (the timestamp of a posted
 * message) is a parameter.
 */
module Discord {
  import opened Wrappers
  import opened Strings
  import UserBiMap
  import History

  predicate IsDigit(c: char) {
    '0' <= c <= '9'
  }

  /** Where the digits of a mention token start: after "<@", and after the "!" when there is one. */
  function DigitsStart(t: string): nat
    requires |t| >= 3
  {
    if t[2] == '!' then 3 else 2
  }

  /** The Discord mention token `<@!?(\d){17,18}>`. */
  predicate IsMentionToken(t: string) {
    && 20 <= |t| <= 22
    && t[0] == '<' && t[1] == '@' && t[|t| - 1] == '>'
    && 17 <= |t| - 1 - DigitsStart(t) <= 18
    && forall i :: DigitsStart(t) <= i < |t| - 1 ==> IsDigit(t[i])
  }

  /** The user ID a mention token carries. */
  function TokenDigits(t: string): string
    requires IsMentionToken(t)
  {
    t[DigitsStart(t)..|t| - 1]
  }

  lemma MentionTokensDelimited()
    ensures Delimited(IsMentionToken)
  {
  }

  /** The Discord ID of a mention part: the part with every "!", then every "<@", then every ">" removed. */
  function MentionId(part: string): string {
    ReplaceAll(ReplaceAll(ReplaceAll(part, "!", ""), "<@", ""), ">", "")
  }

  /** Removing "!" from a mention with one drops it and keeps "<@". */
  lemma RemoveBang(tail: string)
    requires '!' !in tail
    ensures ReplaceAll("<@" + "!" + tail, "!", "") == "<@" + tail
  {
    ReplaceAllOnce("<@", tail, "!", "");
    assert "<@" + "" + tail == "<@" + tail;
  }

  /** Removing "<@" from the front of a text that holds no other '<'. */
  lemma RemoveOpen(tail: string)
    requires '<' !in tail
    ensures ReplaceAll("<@" + tail, "<@", "") == tail
  {
    ReplaceAllOnce("", tail, "<@", "");
    assert "" + "<@" + tail == "<@" + tail;
    assert "" + "" + tail == tail;
  }

  lemma MentionIdOfDigits(bang: string, d: string)
    requires bang == "" || bang == "!"
    requires forall k :: 0 <= k < |d| ==> IsDigit(d[k])
    ensures MentionId("<@" + bang + d + ">") == d
  {
    var tail := d + ">";
    assert '!' !in tail && '<' !in tail && '>' !in d;
    var t := "<@" + bang + d + ">";
    assert ReplaceAll(t, "!", "") == "<@" + tail by {
      if bang == "!" {
        assert t == "<@" + "!" + tail;
        RemoveBang(tail);
      } else {
        assert t == "<@" + tail;
        assert '!' !in "<@" + tail;
        ReplaceAllAbsent("<@" + tail, "!", "");
      }
    }
    RemoveOpen(tail);
    ReplaceAllTrailing(d, '>');
  }

  /** On a token the removals leave exactly the digits. */
  lemma MentionIdOfToken(t: string)
    requires IsMentionToken(t)
    ensures MentionId(t) == TokenDigits(t)
  {
    var bang := if t[2] == '!' then "!" else "";
    assert t == "<@" + bang + TokenDigits(t) + ">";
    MentionIdOfDigits(bang, TokenDigits(t));
  }

  /** A Slack mention of a user ID. */
  function SlackMention(userId: string): string {
    "<@" + userId + ">"
  }

  /** One piece of the split content as it is appended to the Slack text. */
  function RenderPart(ids: UserBiMap.SecureConstants, part: string): string {
    if StartsWith(part, "<@") then SlackMention(UserBiMap.GetOrDefault(ids, MentionId(part), part))
    else part
  }

  function Rendered(ids: UserBiMap.SecureConstants, parts: seq<string>): (r: seq<string>)
    ensures |r| == |parts| && forall k :: 0 <= k < |r| ==> r[k] == RenderPart(ids, parts[k])
  {
    seq(|parts|, k requires 0 <= k < |parts| => RenderPart(ids, parts[k]))
  }

  lemma RenderedStep(ids: UserBiMap.SecureConstants, parts: seq<string>, i: nat)
    requires i < |parts|
    ensures Concat(Rendered(ids, parts[..i + 1])) == Concat(Rendered(ids, parts[..i])) + RenderPart(ids, parts[i])
  {
    assert Rendered(ids, parts[..i + 1]) == Rendered(ids, parts[..i]) + [RenderPart(ids, parts[i])];
    ConcatAppend(Rendered(ids, parts[..i]), RenderPart(ids, parts[i]));
  }

  /** The attribution prefix, `*name*: ` (bold in Slack). */
  function Attribution(authorName: string): string {
    "*" + authorName + "*: "
  }

  /** The Slack text convertDiscordMessage builds for a message's raw content. */
  function SlackText(ids: UserBiMap.SecureConstants, authorName: string, contentRaw: string): (r: string)
    ensures StartsWith(r, Attribution(authorName))
  {
    var r := Attribution(authorName) + Concat(Rendered(ids, Split(contentRaw, IsMentionToken)));
    assert r[..|Attribution(authorName)|] == Attribution(authorName);
    r
  }

  /** A mention token becomes a Slack mention of the mapped user, or, on a miss, the token wrapped once more. */
  lemma RenderMention(ids: UserBiMap.SecureConstants, t: string)
    requires IsMentionToken(t)
    ensures UserBiMap.Get(ids, TokenDigits(t)).Some? ==>
      RenderPart(ids, t) == SlackMention(UserBiMap.Get(ids, TokenDigits(t)).value)
    ensures UserBiMap.Get(ids, TokenDigits(t)).None? ==> RenderPart(ids, t) == SlackMention(t)
  {
    MentionIdOfToken(t);
    assert t[..2] == "<@";
  }

  /** Pieces that do not start with "<@" are appended verbatim and in order. */
  lemma SlackTextVerbatim(ids: UserBiMap.SecureConstants, authorName: string, contentRaw: string)
    requires forall k :: 0 <= k < |Split(contentRaw, IsMentionToken)| ==>
      !StartsWith(Split(contentRaw, IsMentionToken)[k], "<@")
    ensures SlackText(ids, authorName, contentRaw) == Attribution(authorName) + contentRaw
  {
    var parts := Split(contentRaw, IsMentionToken);
    assert Rendered(ids, parts) == parts;
    SplitConcat(contentRaw, IsMentionToken);
  }

  /** No mention token occurs anywhere in `s`. */
  predicate NoMentionToken(s: string) {
    forall i, j :: 0 <= i < j <= |s| ==> !IsMentionToken(s[i..j])
  }

  lemma NoTokenSinglePiece(s: string)
    requires NoMentionToken(s)
    ensures Split(s, IsMentionToken) == [s]
  {
    forall p | 0 < p < |s| ensures !IsCut(s, IsMentionToken, p) {
    }
    SplitNoCut(s, IsMentionToken);
  }

  lemma SinglePieceText(ids: UserBiMap.SecureConstants, authorName: string, contentRaw: string)
    requires Split(contentRaw, IsMentionToken) == [contentRaw]
    ensures SlackText(ids, authorName, contentRaw) == Attribution(authorName) + RenderPart(ids, contentRaw)
  {
    var r := RenderPart(ids, contentRaw);
    assert Rendered(ids, [contentRaw]) == [r];
    assert Concat([r]) == r + Concat([]);
  }

  lemma SingleMentionPieceText(ids: UserBiMap.SecureConstants, authorName: string, contentRaw: string)
    requires Split(contentRaw, IsMentionToken) == [contentRaw] && StartsWith(contentRaw, "<@")
    ensures SlackText(ids, authorName, contentRaw) ==
      Attribution(authorName) + SlackMention(UserBiMap.GetOrDefault(ids, MentionId(contentRaw), contentRaw))
  {
    SinglePieceText(ids, authorName, contentRaw);
  }

  /** Plain text that does not start with "<@" is forwarded unchanged after the attribution. */
  lemma LiteralContentForwarded(ids: UserBiMap.SecureConstants, authorName: string, contentRaw: string)
    requires NoMentionToken(contentRaw) && !StartsWith(contentRaw, "<@")
    ensures SlackText(ids, authorName, contentRaw) == Attribution(authorName) + contentRaw
  {
    NoTokenSinglePiece(contentRaw);
    SinglePieceText(ids, authorName, contentRaw);
  }

  /**
   * Text that starts with "<@" without being a token is still rewritten as a
   * mention: "<@", the lookup of its stripped text (or the whole text on a
   * miss), ">".
   */
  lemma NonTokenMentionPrefixRewritten(ids: UserBiMap.SecureConstants, authorName: string, contentRaw: string)
    requires NoMentionToken(contentRaw) && StartsWith(contentRaw, "<@")
    ensures SlackText(ids, authorName, contentRaw) ==
      Attribution(authorName) + SlackMention(UserBiMap.GetOrDefault(ids, MentionId(contentRaw), contentRaw))
  {
    NoTokenSinglePiece(contentRaw);
    SingleMentionPieceText(ids, authorName, contentRaw);
  }

  /**
   * Every mention token in the content reaches Slack: as a mention of the
   * mapped user on a hit, as the re-wrapped token on a miss.
   */
  lemma MentionForwarded(ids: UserBiMap.SecureConstants, authorName: string, contentRaw: string, i: nat, j: nat)
    requires i < j <= |contentRaw| && IsMentionToken(contentRaw[i..j])
    ensures var t := contentRaw[i..j]; var target := UserBiMap.Get(ids, TokenDigits(t));
      Contains(SlackText(ids, authorName, contentRaw), SlackMention(if target.Some? then target.value else t))
  {
    var t := contentRaw[i..j];
    var parts := Split(contentRaw, IsMentionToken);
    MentionTokensDelimited();
    TokenIsWholePiece(contentRaw, IsMentionToken, i, j);
    var k :| 0 <= k < |parts| && parts[k] == t;
    RenderMention(ids, t);
    ConcatContains(Rendered(ids, parts), k);
    ContainsInRight(Attribution(authorName), Concat(Rendered(ids, parts)), RenderPart(ids, t));
  }

  /** A Discord message author as the listener sees it. */
  datatype Author = Author(name: string, isBot: bool)

  /** A call the listener makes on the Slack session, in the Slack channel. */
  datatype SlackCall =
    | SendMessage(text: string)
    | DeleteMessage(timestamp: string)
    | UpdateMessage(timestamp: string, text: string)
    | AddReactionToMessage(timestamp: string, alias: string)
    | RemoveReactionFromMessage(timestamp: string, alias: string)

  /** A received message is forwarded when it mentions the bot and its author is not a bot. */
  predicate Forwards(author: Author, mentionsSelf: bool) {
    mentionsSelf && !author.isBot
  }

  class DiscordConnector {
    /** The history shared with the Slack listener. */
    const history: History.MessageHistory
    const ids: UserBiMap.SecureConstants
    /** The first Slack alias of a unicode emoji (EmojiManager.getByUnicode(e).getAliases().get(0)). */
    const aliasOf: string -> string

    constructor (history: History.MessageHistory, ids: UserBiMap.SecureConstants, aliasOf: string -> string)
      ensures this.history == history && this.ids == ids && this.aliasOf == aliasOf
    {
      this.history := history;
      this.ids := ids;
      this.aliasOf := aliasOf;
    }

    /** convertDiscordMessage: the attribution, then each piece of the split content, mentions rewritten. */
    method ConvertDiscordMessage(authorName: string, contentRaw: string) returns (slackMessage: string)
      ensures slackMessage == SlackText(ids, authorName, contentRaw)
    {
      slackMessage := Attribution(authorName);
      var parts := Split(contentRaw, IsMentionToken);
      assert Rendered(ids, parts[..0]) == [];
      for i := 0 to |parts|
        invariant slackMessage == Attribution(authorName) + Concat(Rendered(ids, parts[..i]))
      {
        var part := parts[i];
        var piece := RenderPart(ids, part);
        RenderedStep(ids, parts, i);
        slackMessage := slackMessage + piece;
      }
      assert parts[..|parts|] == parts;
    }

    /** onMessageReceived */
    method OnMessageReceived(messageId: int, author: Author, contentRaw: string, mentionsSelf: bool,
                             replyTimestamp: string)
      returns (calls: seq<SlackCall>)
      requires history.Valid()
      modifies history
      ensures history.Valid()
      ensures Forwards(author, mentionsSelf) ==>
        && calls == [SendMessage(SlackText(ids, author.name, contentRaw))]
        && history.Dtos() == History.Save(old(history.Dtos()), messageId, replyTimestamp)
      ensures !Forwards(author, mentionsSelf) ==> calls == [] && history.Dtos() == old(history.Dtos())
      ensures history.Stod() == old(history.Stod())
    {
      calls := [];
      if mentionsSelf && !author.isBot {
        var slackMessage := ConvertDiscordMessage(author.name, contentRaw);
        calls := [SendMessage(slackMessage)];
        history.SaveSlackMessage(messageId, replyTimestamp);
      }
    }

    /** onMessageDelete: the correlation is removed first; Slack is called only when there was one. */
    method OnMessageDelete(messageId: int) returns (calls: seq<SlackCall>)
      requires history.Valid()
      modifies history
      ensures history.Valid()
      ensures history.Dtos() == History.Drop(old(history.Dtos()), messageId)
      ensures history.Stod() == old(history.Stod())
      ensures calls == match History.Lookup(old(history.Dtos()), messageId)
                       case None => []
                       case Some(timestamp) => [DeleteMessage(timestamp)]
    {
      var timestamp := history.RemoveSlackMessage(messageId);
      calls := [];
      if timestamp.Some? {
        calls := [DeleteMessage(timestamp.value)];
      }
    }

    /** onMessageUpdate: reads the history only. */
    method OnMessageUpdate(messageId: int, author: Author, contentRaw: string) returns (calls: seq<SlackCall>)
      ensures calls == match History.Lookup(history.Dtos(), messageId)
                       case None => []
                       case Some(timestamp) => [UpdateMessage(timestamp, SlackText(ids, author.name, contentRaw))]
    {
      var timestamp := history.GetSlackTimestamp(messageId);
      calls := [];
      if timestamp.Some? {
        var slackMessage := ConvertDiscordMessage(author.name, contentRaw);
        calls := [UpdateMessage(timestamp.value, slackMessage)];
      }
    }

    /** onMessageReactionAdd: reads the history only. */
    method OnMessageReactionAdd(messageId: int, emote: string) returns (calls: seq<SlackCall>)
      ensures calls == match History.Lookup(history.Dtos(), messageId)
                       case None => []
                       case Some(timestamp) => [AddReactionToMessage(timestamp, aliasOf(emote))]
    {
      var timestamp := history.GetSlackTimestamp(messageId);
      calls := [];
      if timestamp.Some? {
        calls := [AddReactionToMessage(timestamp.value, aliasOf(emote))];
      }
    }

    /** onMessageReactionRemove: reads the history only. */
    method OnMessageReactionRemove(messageId: int, emote: string) returns (calls: seq<SlackCall>)
      ensures calls == match History.Lookup(history.Dtos(), messageId)
                       case None => []
                       case Some(timestamp) => [RemoveReactionFromMessage(timestamp, aliasOf(emote))]
    {
      var timestamp := history.GetSlackTimestamp(messageId);
      calls := [];
      if timestamp.Some? {
        calls := [RemoveReactionFromMessage(timestamp.value, aliasOf(emote))];
      }
    }
  }
}
