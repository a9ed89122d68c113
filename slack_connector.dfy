/**
 * SlackConnector: the Slack listeners. A Slack message that mentions the bot
 * is forwarded to Discord; edits, deletions and reactions of forwarded
 * messages are mirrored. Calls into Discord are returned as a sequence of
 * `DiscordCall`s; what Discord answers (the sent message, a refetched
 * message) is a parameter.
 */
module Slack {
  import opened Wrappers
  import opened Strings
  import UserBiMap
  import History

  /** The character class `[A-z0-9]`: 'A' to 'z' (which includes `[\]^_` and the backquote) or a digit. */
  predicate IsIdChar(c: char) {
    ('A' <= c <= 'z') || ('0' <= c <= '9')
  }

  /** The Slack mention token `<@U[A-z0-9]{8}>`. */
  predicate IsMentionToken(t: string) {
    && |t| == 12
    && t[0] == '<' && t[1] == '@' && t[2] == 'U' && t[11] == '>'
    && forall i :: 3 <= i < 11 ==> IsIdChar(t[i])
  }

  lemma MentionTokensDelimited()
    ensures Delimited(IsMentionToken)
  {
  }

  datatype SlackUser = SlackUser(id: string, userName: string)

  /**
   * What the forwarding needs to resolve names: the identity tables, the
   * users of the Slack session in the order it lists them, and the Discord
   * user lookup, which gives the mention text of a user, or None where
   * `getUserById` raises IllegalArgumentException (a null or malformed ID).
   */
  datatype Directory = Directory(
    ids: UserBiMap.SecureConstants,
    users: seq<SlackUser>,
    discordUser: string -> Option<string>)

  /** `users[k]` is the first user whose ID equals `userId`, ignoring case. */
  predicate FirstMatchAt(users: seq<SlackUser>, userId: string, k: int) {
    && 0 <= k < |users|
    && EqualsIgnoreCase(users[k].id, userId)
    && forall m :: 0 <= m < k ==> !EqualsIgnoreCase(users[m].id, userId)
  }

  /** The first user whose ID equals `userId`, ignoring case. */
  function FindUser(users: seq<SlackUser>, userId: string): (r: Option<SlackUser>)
    ensures r.None? <==> forall k :: 0 <= k < |users| ==> !EqualsIgnoreCase(users[k].id, userId)
    ensures r.Some? ==> exists k :: FirstMatchAt(users, userId, k) && users[k] == r.value
  {
    if users == [] then None
    else if EqualsIgnoreCase(users[0].id, userId) then Some(users[0])
    else
      var r := FindUser(users[1..], userId);
      if r.Some? then
        var k :| FirstMatchAt(users[1..], userId, k) && users[1..][k] == r.value;
        assert FirstMatchAt(users, userId, k + 1);
        r
      else r
  }

  /**
   * The text a Slack user ID becomes: the Discord mention of the mapped user
   * when the lookup succeeds, otherwise the name of the first Slack user with
   * that ID; None when there is no such user (`Optional.get` throws).
   */
  function Resolve(dir: Directory, userId: string): Option<string> {
    var mapped := UserBiMap.Get(dir.ids, userId);
    var mention := if mapped.Some? then dir.discordUser(mapped.value) else None;
    if mention.Some? then mention
    else
      match FindUser(dir.users, userId)
      case None => None
      case Some(user) => Some(user.userName)
  }

  /**
   * One piece of the split message as appended to the Discord message. A
   * piece starting with "<@" loses its first two and its last character to
   * give the user ID; a piece too short for that throws, as does a failed
   * resolution.
   */
  function PartText(dir: Directory, part: string): Option<string> {
    if StartsWith(part, "<@") then
      if |part| < 3 then None else Resolve(dir, part[2..|part| - 1])
    else Some(part)
  }

  /** The pieces translated and joined in order; None as soon as one of them throws. */
  function Translate(dir: Directory, parts: seq<string>): Option<string>
    decreases |parts|
  {
    if parts == [] then Some("")
    else
      var init := Translate(dir, parts[..|parts| - 1]);
      var last := PartText(dir, parts[|parts| - 1]);
      if init.None? || last.None? then None else Some(init.value + last.value)
  }

  /** The attribution of a forwarded Slack message, `**name**: ` (bold in Discord), when the sender is known. */
  function Attribution(sender: Option<SlackUser>): string {
    if sender.Some? then "**" + sender.value.userName + "**: " else ""
  }

  /** The Discord text the two-argument convertSlackMessage builds; None when it throws. */
  function DiscordText(dir: Directory, content: string, sender: Option<SlackUser>): Option<string> {
    var body := Translate(dir, Split(content, IsMentionToken));
    if body.None? then None else Some(Attribution(sender) + body.value)
  }

  /** A piece that succeeds extends the translation of the pieces before it. */
  lemma TranslateExtends(dir: Directory, parts: seq<string>, i: nat, body: string, piece: string)
    requires i < |parts|
    requires Translate(dir, parts[..i]) == Some(body) && PartText(dir, parts[i]) == Some(piece)
    ensures Translate(dir, parts[..i + 1]) == Some(body + piece)
  {
    assert parts[..i + 1][..i] == parts[..i];
  }

  /** The Discord text of a message whose pieces all succeed. */
  lemma DiscordTextOfBody(dir: Directory, content: string, sender: Option<SlackUser>, parts: seq<string>, body: string)
    requires parts == Split(content, IsMentionToken) && Translate(dir, parts[..|parts|]) == Some(body)
    ensures DiscordText(dir, content, sender) == Some(Attribution(sender) + body)
  {
    assert parts[..|parts|] == parts;
  }

  /** A piece that throws makes the whole conversion throw. */
  lemma DiscordTextFailsAt(dir: Directory, content: string, sender: Option<SlackUser>, parts: seq<string>, i: nat)
    requires parts == Split(content, IsMentionToken) && i < |parts| && PartText(dir, parts[i]).None?
    ensures DiscordText(dir, content, sender).None?
  {
    TranslateFailsIffPartFails(dir, parts);
  }

  /** The translation fails exactly when one of the pieces does. */
  lemma {:induction false} TranslateFailsIffPartFails(dir: Directory, parts: seq<string>)
    ensures Translate(dir, parts).None? <==> exists k :: 0 <= k < |parts| && PartText(dir, parts[k]).None?
    decreases |parts|
  {
    if parts != [] {
      var init := parts[..|parts| - 1];
      TranslateFailsIffPartFails(dir, init);
      if exists k :: 0 <= k < |init| && PartText(dir, init[k]).None? {
        var k :| 0 <= k < |init| && PartText(dir, init[k]).None?;
        assert parts[k] == init[k];
      }
      if exists k :: 0 <= k < |parts| && PartText(dir, parts[k]).None? {
        var k :| 0 <= k < |parts| && PartText(dir, parts[k]).None?;
        if k < |init| {
          assert init[k] == parts[k];
        }
      }
    }
  }

  /** When every piece succeeds, the translation is their texts joined in order. */
  lemma {:induction false} TranslateJoins(dir: Directory, parts: seq<string>)
    requires forall k :: 0 <= k < |parts| ==> PartText(dir, parts[k]).Some?
    ensures Translate(dir, parts) == Some(Concat(seq(|parts|, k requires 0 <= k < |parts| => PartText(dir, parts[k]).value)))
    decreases |parts|
  {
    var texts := seq(|parts|, k requires 0 <= k < |parts| => PartText(dir, parts[k]).value);
    if parts != [] {
      var init := parts[..|parts| - 1];
      TranslateJoins(dir, init);
      var initTexts := seq(|init|, k requires 0 <= k < |init| => PartText(dir, init[k]).value);
      assert texts == initTexts + [texts[|parts| - 1]];
      ConcatAppend(initTexts, texts[|parts| - 1]);
    }
  }

  /** Without a piece that starts with "<@", the content is forwarded verbatim after the attribution. */
  lemma VerbatimWithoutMentions(dir: Directory, content: string, sender: Option<SlackUser>)
    requires forall k :: 0 <= k < |Split(content, IsMentionToken)| ==>
      !StartsWith(Split(content, IsMentionToken)[k], "<@")
    ensures DiscordText(dir, content, sender) == Some(Attribution(sender) + content)
  {
    var parts := Split(content, IsMentionToken);
    TranslateJoins(dir, parts);
    assert seq(|parts|, k requires 0 <= k < |parts| => PartText(dir, parts[k]).value) == parts;
    SplitConcat(content, IsMentionToken);
  }

  /** A forwarded message starts with the attribution, which is empty exactly when the sender is unknown. */
  lemma ForwardedStartsWithAttribution(dir: Directory, content: string, sender: Option<SlackUser>)
    requires DiscordText(dir, content, sender).Some?
    ensures StartsWith(DiscordText(dir, content, sender).value, Attribution(sender))
    ensures sender.None? ==> DiscordText(dir, content, sender) == Translate(dir, Split(content, IsMentionToken))
  {
    var r := DiscordText(dir, content, sender).value;
    assert r[..|Attribution(sender)|] == Attribution(sender);
  }

  /**
   * Every mention token in the content reaches Discord as what its user ID
   * resolves to, and a token whose ID resolves to nothing makes the whole
   * conversion throw.
   */
  lemma MentionResolved(dir: Directory, content: string, sender: Option<SlackUser>, i: nat, j: nat)
    requires i < j <= |content| && IsMentionToken(content[i..j])
    ensures var userId := content[i + 2..j - 1];
      Resolve(dir, userId).None? ==> DiscordText(dir, content, sender).None?
    ensures var userId := content[i + 2..j - 1];
      DiscordText(dir, content, sender).Some? ==>
        Resolve(dir, userId).Some? && Contains(DiscordText(dir, content, sender).value, Resolve(dir, userId).value)
  {
    var t := content[i..j];
    var parts := Split(content, IsMentionToken);
    assert t in parts by {
      MentionTokensDelimited();
      TokenIsWholePiece(content, IsMentionToken, i, j);
    }
    var k :| 0 <= k < |parts| && parts[k] == t;
    assert PartText(dir, t) == Resolve(dir, content[i + 2..j - 1]) by {
      assert t[..2] == "<@";
      assert |t| == j - i;
      var inner := t[2..|t| - 1];
      var userId := content[i + 2..j - 1];
      forall m | 0 <= m < |inner| ensures inner[m] == userId[m] {
        assert inner[m] == t[m + 2] == content[i + m + 2];
      }
      assert inner == userId;
    }
    TranslateFailsIffPartFails(dir, parts);
    if DiscordText(dir, content, sender).Some? {
      TranslateJoins(dir, parts);
      var texts := seq(|parts|, k requires 0 <= k < |parts| => PartText(dir, parts[k]).value);
      ConcatContains(texts, k);
      ContainsInRight(Attribution(sender), Concat(texts), texts[k]);
    }
  }

  /** A mapped Slack user whom Discord knows is forwarded as the Discord mention. */
  lemma MappedUserBecomesDiscordMention(dir: Directory, userId: string)
    requires UserBiMap.Get(dir.ids, userId).Some?
    requires dir.discordUser(UserBiMap.Get(dir.ids, userId).value).Some?
    ensures Resolve(dir, userId) == dir.discordUser(UserBiMap.Get(dir.ids, userId).value)
  {
  }

  /**
   * Otherwise (no mapping, or a mapping Discord does not know) the first
   * Slack user with that ID, ignoring case, gives the name.
   */
  lemma UnmappedUserBecomesName(dir: Directory, userId: string, k: nat)
    requires UserBiMap.Get(dir.ids, userId).None? || dir.discordUser(UserBiMap.Get(dir.ids, userId).value).None?
    requires FirstMatchAt(dir.users, userId, k)
    ensures Resolve(dir, userId) == Some(dir.users[k].userName)
  {
    var found := FindUser(dir.users, userId);
    var q :| FirstMatchAt(dir.users, userId, q) && dir.users[q] == found.value;
    assert q == k;
  }

  /** And when no Slack user has that ID either, the conversion fails. */
  lemma UnknownUserFails(dir: Directory, userId: string)
    requires UserBiMap.Get(dir.ids, userId).None? || dir.discordUser(UserBiMap.Get(dir.ids, userId).value).None?
    requires forall k :: 0 <= k < |dir.users| ==> !EqualsIgnoreCase(dir.users[k].id, userId)
    ensures Resolve(dir, userId).None?
  {
  }

  // ---------------------------------------------------------------------------
  // the three-argument convertSlackMessage, used on edits

  /**
   * Each user in turn: every occurrence of the ID replaced by the name, then
   * every '<' and '>' removed.
   */
  function ReplaceUserIds(s: string, users: seq<SlackUser>): string
    decreases |users|
  {
    if users == [] then s
    else
      var last := users[|users| - 1];
      StripAngles(ReplaceAll(ReplaceUserIds(s, users[..|users| - 1]), last.id, last.userName))
  }

  /** The Discord text of an edit, with the attribution only for a known sender. */
  function NamedText(s: string, sender: Option<string>, users: seq<SlackUser>): string {
    (if sender.Some? then "**" + sender.value + "**: " else "") + ReplaceUserIds(s, users)
  }

  /** With at least one user, no '<' or '>' survives; with none, the text is unchanged. */
  lemma ReplaceUserIdsStripsAngles(s: string, users: seq<SlackUser>)
    ensures users != [] ==> forall k :: 0 <= k < |ReplaceUserIds(s, users)| ==> !IsAngle(ReplaceUserIds(s, users)[k])
    ensures users == [] ==> ReplaceUserIds(s, users) == s
  {
  }

  /** A Slack mention of the only user becomes "@" and the user's name: `MentionOfUser` with nothing around it. */
  lemma MentionOfOnlyUser(user: SlackUser)
    requires |user.id| > 0 && forall k :: 0 <= k < |user.id| ==> IsIdChar(user.id[k])
    ensures ReplaceUserIds("<@" + user.id + ">", [user]) == "@" + StripAngles(user.userName)
  {
    var id := user.id;
    var s := MentionStage("", "", user, 0, 0);
    assert s == "<@" + id + ">";
    forall i: nat | OccursAt(s, id, i)
      ensures i == 2
    {
      assert s[i] == id[0] && s[i + |id| - 1] == id[|id| - 1];
    }
    MentionOfUser("", "", [user], 0);
    assert "" + "@" + StripAngles(user.userName) + "" == "@" + StripAngles(user.userName);
  }

  /**
   * The text `p + "<@" + user.id + ">" + q` after the first `n` users of the
   * list have been processed, when `user` is the `k`-th: the first pass
   * removes the brackets, the `k`-th puts the name in place of the ID.
   */
  function MentionStage(p: string, q: string, user: SlackUser, k: nat, n: nat): string {
    if n == 0 then p + "<@" + user.id + ">" + q
    else if n <= k then p + "@" + user.id + q
    else p + "@" + StripAngles(user.userName) + q
  }

  lemma StripMention(m: string)
    ensures StripAngles("<@" + m + ">") == "@" + StripAngles(m)
  {
    StripAnglesAppend("<@" + m, ">");
    StripAnglesAppend("<@", m);
    StripAnglesAppend("<", "@");
    assert StripAngles(">") == [];
  }

  /** After the first pass a stage has no brackets left. */
  lemma MentionStageStripped(p: string, q: string, user: SlackUser, k: nat, n: nat)
    requires NoAngles(p) && NoAngles(q) && NoAngles(user.id)
    requires n > 0
    ensures StripAngles(MentionStage(p, q, user, k, n)) == MentionStage(p, q, user, k, n)
  {
    var m := if n <= k then user.id else StripAngles(user.userName);
    assert MentionStage(p, q, user, k, n) == p + ("@" + m) + q;
    StripAnglesAround(p, "@" + m, q);
    StripAnglesNone("@" + m);
  }

  /** A user other than the `k`-th leaves the stage as it is, apart from the first pass's brackets. */
  lemma MentionStageSkip(p: string, q: string, user: SlackUser, k: nat, n: nat, other: SlackUser)
    requires NoAngles(p) && NoAngles(q) && NoAngles(user.id)
    requires n != k && !Contains(MentionStage(p, q, user, k, n), other.id)
    ensures StripAngles(ReplaceAll(MentionStage(p, q, user, k, n), other.id, other.userName))
            == MentionStage(p, q, user, k, n + 1)
  {
    var stage := MentionStage(p, q, user, k, n);
    assert OccursAt(stage, [], 0);
    assert |other.id| > 0;
    ReplaceAllNotContained(stage, other.id, other.userName);
    if n == 0 {
      assert stage == p + ("<@" + user.id + ">") + q;
      StripAnglesAround(p, "<@" + user.id + ">", q);
      StripMention(user.id);
      StripAnglesNone(user.id);
    } else {
      MentionStageStripped(p, q, user, k, n);
    }
  }

  /** The `k`-th user's only occurrence becomes the name, and the brackets go. */
  lemma MentionStageHit(p: string, q: string, user: SlackUser, k: nat)
    requires NoAngles(p) && NoAngles(q)
    requires forall i :: OccursAt(MentionStage(p, q, user, k, k), user.id, i) ==> i == |p| + (if k == 0 then 2 else 1)
    ensures StripAngles(ReplaceAll(MentionStage(p, q, user, k, k), user.id, user.userName))
            == MentionStage(p, q, user, k, k + 1)
  {
    var stage := MentionStage(p, q, user, k, k);
    assert OccursAt(stage, [], 0);
    assert |user.id| > 0;
    if k == 0 {
      assert stage == (p + "<@") + user.id + (">" + q);
      ReplaceBracketedMention(p, q, user.id, user.userName);
    } else {
      assert stage == (p + "@") + user.id + q;
      ReplacePlainMention(p, q, user.id, user.userName);
    }
  }

  lemma ReplaceBracketedMention(p: string, q: string, id: string, name: string)
    requires NoAngles(p) && NoAngles(q) && |id| > 0
    requires forall i :: OccursAt((p + "<@") + id + (">" + q), id, i) ==> i == |p + "<@"|
    ensures StripAngles(ReplaceAll((p + "<@") + id + (">" + q), id, name)) == p + "@" + StripAngles(name) + q
  {
    ReplaceAllSingle(p + "<@", id, ">" + q, name);
    assert (p + "<@") + name + (">" + q) == p + ("<@" + name + ">") + q;
    StripAnglesAround(p, "<@" + name + ">", q);
    StripMention(name);
  }

  lemma ReplacePlainMention(p: string, q: string, id: string, name: string)
    requires NoAngles(p) && NoAngles(q) && |id| > 0
    requires forall i :: OccursAt((p + "@") + id + q, id, i) ==> i == |p + "@"|
    ensures StripAngles(ReplaceAll((p + "@") + id + q, id, name)) == p + "@" + StripAngles(name) + q
  {
    ReplaceAllSingle(p + "@", id, q, name);
    assert (p + "@") + name + q == p + ("@" + name) + q;
    StripAnglesAround(p, "@" + name, q);
    StripAnglesAppend("@", name);
  }

  lemma {:induction false} ReplaceUserIdsStages(p: string, q: string, users: seq<SlackUser>, k: nat, n: nat)
    requires k < |users| && n <= |users|
    requires NoAngles(p) && NoAngles(q) && NoAngles(users[k].id)
    requires forall i :: OccursAt(MentionStage(p, q, users[k], k, k), users[k].id, i) ==> i == |p| + (if k == 0 then 2 else 1)
    requires forall j :: 0 <= j < |users| && j != k ==> !Contains(MentionStage(p, q, users[k], k, j), users[j].id)
    ensures ReplaceUserIds(MentionStage(p, q, users[k], k, 0), users[..n]) == MentionStage(p, q, users[k], k, n)
  {
    if n == 0 {
      assert users[..0] == [];
    } else {
      ReplaceUserIdsStages(p, q, users, k, n - 1);
      assert users[..n][..n - 1] == users[..n - 1];
      if n - 1 == k {
        MentionStageHit(p, q, users[k], k);
      } else {
        MentionStageSkip(p, q, users[k], k, n - 1, users[n - 1]);
      }
    }
  }

  /**
   * A Slack mention of the `k`-th user anywhere in an edit becomes "@" and
   * the user's name, as long as the ID occurs only in the mention and no
   * other user's ID occurs in the text while it is being rewritten.
   */
  lemma MentionOfUser(p: string, q: string, users: seq<SlackUser>, k: nat)
    requires k < |users|
    requires NoAngles(p) && NoAngles(q) && NoAngles(users[k].id)
    requires forall i :: OccursAt(MentionStage(p, q, users[k], k, k), users[k].id, i) ==> i == |p| + (if k == 0 then 2 else 1)
    requires forall j :: 0 <= j < |users| && j != k ==> !Contains(MentionStage(p, q, users[k], k, j), users[j].id)
    ensures ReplaceUserIds(p + "<@" + users[k].id + ">" + q, users) == p + "@" + StripAngles(users[k].userName) + q
  {
    ReplaceUserIdsStages(p, q, users, k, |users|);
    assert users[..|users|] == users;
  }

  /** The Discord text up to and including its first space; empty when it has none. */
  function ThroughFirstSpace(s: string): (r: string)
    ensures ' ' !in s ==> r == ""
    ensures ' ' in s ==> 0 < |r| <= |s| && r == s[..|r|] && r[|r| - 1] == ' ' && ' ' !in r[..|r| - 1]
  {
    s[..IndexOf(s, ' ') + 1]
  }

  /** An edit keeps the attribution of a forwarded message whose sender's name has no space. */
  lemma EditKeepsAttribution(name: string, rest: string)
    requires ' ' !in name
    ensures ThroughFirstSpace("**" + name + "**: " + rest) == "**" + name + "**: "
  {
    var prefix := "**" + name + "**: ";
    var s := prefix + rest;
    assert s[..|prefix|] == prefix;
    assert ' ' !in prefix[..|prefix| - 1];
    assert s[|prefix| - 1] == ' ';
  }

  // ---------------------------------------------------------------------------
  // the listeners

  /** A call the listeners make on Discord, in the Discord channel. */
  datatype DiscordCall =
    | SendMessage(text: string)
    | EditMessage(messageId: int, text: string)
    | DeleteMessage(messageId: int)
    | AddReaction(messageId: int, unicode: string)
    | RemoveReaction(messageId: int, emote: string)
    | FetchMessage(messageId: int)

  /** A posted message is forwarded when somebody else sent it and it contains "@" and the bot's ID. */
  predicate Forwards(selfId: string, sender: SlackUser, content: string) {
    selfId != sender.id && Contains(content, "@" + selfId)
  }

  /** `reactions[k]` is the first reaction that matches the emoji, ignoring case. */
  predicate FirstReactionAt(reactions: seq<string>, unicode: string, k: int) {
    && 0 <= k < |reactions|
    && EqualsIgnoreCase(reactions[k], unicode)
    && forall m :: 0 <= m < k ==> !EqualsIgnoreCase(reactions[m], unicode)
  }

  /** The first of a message's reactions that matches the emoji, ignoring case. */
  function FirstMatching(reactions: seq<string>, unicode: string): (r: Option<string>)
    ensures r.None? <==> forall k :: 0 <= k < |reactions| ==> !EqualsIgnoreCase(reactions[k], unicode)
    ensures r.Some? ==> exists k :: FirstReactionAt(reactions, unicode, k) && reactions[k] == r.value
  {
    if reactions == [] then None
    else if EqualsIgnoreCase(reactions[0], unicode) then Some(reactions[0])
    else
      var r := FirstMatching(reactions[1..], unicode);
      assert forall k :: 1 <= k < |reactions| ==> reactions[k] == reactions[1..][k - 1];
      if r.Some? then
        var k :| FirstReactionAt(reactions[1..], unicode, k) && reactions[1..][k] == r.value;
        assert FirstReactionAt(reactions, unicode, k + 1);
        r
      else r
  }

  class SlackConnector {
    /** The history shared with the Discord listener. */
    const history: History.MessageHistory
    /** The configured identity tables, fixed for the life of the listener. */
    const ids: UserBiMap.SecureConstants
    /** The bot's own Slack user ID (the session persona). */
    const selfId: string
    /** The unicode of an emoji alias (EmojiManager.getForAlias(alias).getUnicode()). */
    const unicodeOf: string -> string

    constructor (history: History.MessageHistory, ids: UserBiMap.SecureConstants, selfId: string, unicodeOf: string -> string)
      ensures this.history == history && this.ids == ids
      ensures this.selfId == selfId && this.unicodeOf == unicodeOf
    {
      this.history := history;
      this.ids := ids;
      this.selfId := selfId;
      this.unicodeOf := unicodeOf;
    }

    /**
     * The two-argument convertSlackMessage; None when it throws. The listener
     * passes its `ids` together with the users the Slack session lists and
     * what Discord's user cache answers at the time of the call.
     */
    method ConvertSlackMessage(content: string, sender: Option<SlackUser>, directory: Directory)
      returns (discordMessage: Option<string>)
      ensures discordMessage == DiscordText(directory, content, sender)
    {
      var text := Attribution(sender);
      var parts := Split(content, IsMentionToken);
      ghost var body := "";
      for i := 0 to |parts|
        invariant Translate(directory, parts[..i]) == Some(body)
        invariant text == Attribution(sender) + body
      {
        var part := parts[i];
        var piece := PartText(directory, part);
        if piece.None? {
          DiscordTextFailsAt(directory, content, sender, parts, i);
          return None;
        }
        TranslateExtends(directory, parts, i, body, piece.value);
        text := text + piece.value;
        body := body + piece.value;
      }
      DiscordTextOfBody(directory, content, sender, parts, body);
      discordMessage := Some(text);
    }

    /** The three-argument convertSlackMessage: the loop over the users the session lists at the time of the call. */
    method ConvertSlackMessageNamed(content: string, sender: Option<string>, users: seq<SlackUser>)
      returns (discordMessage: string)
      ensures discordMessage == NamedText(content, sender, users)
    {
      var slackMessage := content;
      for i := 0 to |users|
        invariant slackMessage == ReplaceUserIds(content, users[..i])
      {
        assert users[..i + 1][..i] == users[..i];
        slackMessage := StripAngles(ReplaceAll(slackMessage, users[i].id, users[i].userName));
      }
      assert users[..|users|] == users;
      discordMessage := (if sender.Some? then "**" + sender.value + "**: " else "") + slackMessage;
    }

    /** addMessagePostedListener: a message whose conversion throws is neither sent nor saved. */
    method OnMessagePosted(timestamp: string, content: string, sender: SlackUser, sent: History.DiscordMessage,
                           users: seq<SlackUser>, discordUser: string -> Option<string>)
      returns (calls: seq<DiscordCall>)
      requires history.Valid()
      modifies history
      ensures history.Valid()
      ensures var directory := Directory(ids, users, discordUser);
        Forwards(selfId, sender, content) && DiscordText(directory, content, Some(sender)).Some? ==>
        && calls == [SendMessage(DiscordText(directory, content, Some(sender)).value)]
        && history.Stod() == History.Save(old(history.Stod()), timestamp, sent)
      ensures var directory := Directory(ids, users, discordUser);
        !(Forwards(selfId, sender, content) && DiscordText(directory, content, Some(sender)).Some?) ==>
        calls == [] && history.Stod() == old(history.Stod())
      ensures history.Dtos() == old(history.Dtos())
    {
      calls := [];
      if selfId != sender.id && Contains(content, "@" + selfId) {
        var discordMessage := ConvertSlackMessage(content, Some(sender), Directory(ids, users, discordUser));
        if discordMessage.Some? {
          calls := [SendMessage(discordMessage.value)];
          history.SaveDiscordMessage(timestamp, sent);
        }
      }
    }

    /** addMessageUpdatedListener: reads the history only. */
    method OnMessageUpdated(timestamp: string, newContent: string, users: seq<SlackUser>) returns (calls: seq<DiscordCall>)
      ensures calls == match History.Lookup(history.Stod(), timestamp)
                       case None => []
                       case Some(m) => [EditMessage(m.id, ThroughFirstSpace(m.contentDisplay)
                                                           + NamedText(newContent, None, users))]
    {
      var message := history.GetDiscordMessage(timestamp);
      calls := [];
      if message.Some? {
        var discordMsg := message.value.contentDisplay;
        var slackMessage := discordMsg[..IndexOf(discordMsg, ' ') + 1];
        var converted := ConvertSlackMessageNamed(newContent, None, users);
        slackMessage := slackMessage + converted;
        calls := [EditMessage(message.value.id, slackMessage)];
      }
    }

    /** addMessageDeletedListener: the correlation is removed first; Discord is called only when there was one. */
    method OnMessageDeleted(timestamp: string) returns (calls: seq<DiscordCall>)
      requires history.Valid()
      modifies history
      ensures history.Valid()
      ensures history.Stod() == History.Drop(old(history.Stod()), timestamp)
      ensures history.Dtos() == old(history.Dtos())
      ensures calls == match History.Lookup(old(history.Stod()), timestamp)
                       case None => []
                       case Some(m) => [DeleteMessage(m.id)]
    {
      var discordMsg := history.RemoveDiscordMessage(timestamp);
      calls := [];
      if discordMsg.Some? {
        calls := [DeleteMessage(discordMsg.value.id)];
      }
    }

    /**
     * updateDiscordMessage: refetch the message by its ID and save what
     * Discord returns under the timestamp again.
     */
    method UpdateDiscordMessage(timestamp: string, message: History.DiscordMessage, refetched: History.DiscordMessage)
      returns (calls: seq<DiscordCall>)
      requires history.Valid()
      modifies history
      ensures history.Valid()
      ensures calls == [FetchMessage(message.id)]
      ensures history.Stod() == History.Save(old(history.Stod()), timestamp, refetched)
      ensures history.Dtos() == old(history.Dtos())
    {
      calls := [FetchMessage(message.id)];
      history.SaveDiscordMessage(timestamp, refetched);
    }

    /** addReactionAddedListener, with the completion callback run right after the reaction. */
    method OnReactionAdded(timestamp: string, emojiName: string, refetched: History.DiscordMessage)
      returns (calls: seq<DiscordCall>)
      requires history.Valid()
      modifies history
      ensures history.Valid()
      ensures History.Lookup(old(history.Stod()), timestamp).None? ==>
        calls == [] && history.Stod() == old(history.Stod())
      ensures History.Lookup(old(history.Stod()), timestamp).Some? ==>
        var m := History.Lookup(old(history.Stod()), timestamp).value;
        && calls == [AddReaction(m.id, unicodeOf(emojiName)), FetchMessage(m.id)]
        && history.Stod() == History.Save(old(history.Stod()), timestamp, refetched)
      ensures history.Dtos() == old(history.Dtos())
    {
      var message := history.GetDiscordMessage(timestamp);
      calls := [];
      if message.Some? {
        calls := [AddReaction(message.value.id, unicodeOf(emojiName))];
        var refresh := UpdateDiscordMessage(timestamp, message.value, refetched);
        calls := calls + refresh;
      }
    }

    /**
     * addReactionRemovedListener: removes the first of the stored message's
     * reactions that matches the emoji, and throws (`failed`) when none does.
     */
    method OnReactionRemoved(timestamp: string, emojiName: string, refetched: History.DiscordMessage)
      returns (calls: seq<DiscordCall>, failed: bool)
      requires history.Valid()
      modifies history
      ensures history.Valid()
      ensures History.Lookup(old(history.Stod()), timestamp).None? ==>
        !failed && calls == [] && history.Stod() == old(history.Stod())
      ensures History.Lookup(old(history.Stod()), timestamp).Some? ==>
        var m := History.Lookup(old(history.Stod()), timestamp).value;
        var reaction := FirstMatching(m.reactions, unicodeOf(emojiName));
        && failed == reaction.None?
        && (reaction.None? ==> calls == [] && history.Stod() == old(history.Stod()))
        && (reaction.Some? ==>
              && calls == [RemoveReaction(m.id, reaction.value), FetchMessage(m.id)]
              && history.Stod() == History.Save(old(history.Stod()), timestamp, refetched))
      ensures history.Dtos() == old(history.Dtos())
    {
      var message := history.GetDiscordMessage(timestamp);
      calls := [];
      failed := false;
      if message.Some? {
        var msgReaction := FirstMatching(message.value.reactions, unicodeOf(emojiName));
        if msgReaction.None? {
          failed := true;
          return;
        }
        calls := [RemoveReaction(message.value.id, msgReaction.value)];
        var refresh := UpdateDiscordMessage(timestamp, message.value, refetched);
        calls := calls + refresh;
      }
    }
  }
}
