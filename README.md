# DSDBot relay core in Dafny

DSDBot is a bot that relays one Slack channel and one Discord channel into
each other. This project models the core of the relay and proves
properties of that model:

- **`History`** (`message_history.dfy`) is the bounded store that
  correlates mirrored messages. It has two independent directions.
  Slack -> Discord maps a Slack timestamp to a Discord message. Discord ->
  Slack maps a Discord message ID to a Slack timestamp. Each direction has
  a FIFO queue of the keys it has saved. The class `MessageHistory` holds
  the four structures as fields and updates them in place. Each method is
  proved against the pure functions `Save`, `Drop` and `Lookup` on one
  direction, and the lemmas state what the store promises about those
  functions.
- **`UserBiMap`** (`user_bimap.dfy`) holds the two fixed identity tables
  (Discord ID -> Slack ID and Slack ID -> Discord ID), with `get` and
  `getOrDefault`. The configured IDs are a parameter, `SecureConstants`.
  The tables are built by successive `HashMap.put`s and only read after
  that, so `Get` is a fixed function of the configuration and the key.
- **`Discord`** (`discord_connector.dfy`) is the Discord listener. It holds
  `convertDiscordMessage` and the five `on…` handlers.
- **`Slack`** (`slack_connector.dfy`) is the Slack listener. It holds both
  `convertSlackMessage` overloads, `updateDiscordMessage` and the five
  listener lambdas.
- **`Strings`** (`strings.dfy`) holds the `java.lang.String` operations
  that the connectors rely on. One of them is `split` around a token
  pattern with the zero-width look-around delimiter `((?<=T)|(?=T))`. The
  two token patterns, `<@!?\d{17,18}>` and `<@U[A-z0-9]{8}>`, are written
  as predicates.

A handler does not call the Slack or Discord SDK. It returns the calls it
would make, as a sequence of `SlackCall` or `DiscordCall` values. An SDK
answer is a parameter of the handler: the timestamp of a posted Slack
message, the sent Discord message, or a refetched Discord message. The
foreign lookups are parameters too:

- `jda.getUserById`, passed anew with each event;
- the users of the Slack session, passed anew with each event;
- the EmojiManager alias <-> unicode tables;
- whether a Discord message mentions the bot (`isMentioned(selfMember,
  USER)`), a flag of the received event;
- whether a Discord message's author is a bot (`Author.isBot`), a field
  of the author.

Where the code does something other than what a relay is expected to do
(keep 1000 messages, pass unknown mentions through as text, ignore
harmless misses), the model follows the code:

- **Capacity.** A direction keeps at most `MAX_MSG_HISTORY - 1` = 999 keys,
  not 1000. The 1000th distinct save evicts the first one.
- **Re-saved keys.** Re-saving a key that is still queued leaves a second
  queue entry. Evicting the older copy later also drops the live mapping.
- **Mention misses on Discord.** A Discord mention that misses in the
  tables is not left verbatim. It is wrapped once more, as `<@` + token +
  `>`.
- **Any part starting with `<@` is rewritten.** This happens on both sides,
  whether or not the part is a token.
- **Unknown Slack users.** A Slack mention of a user whom neither Discord
  nor the Slack session knows does not fall back to literal text. It makes
  the conversion throw, so nothing is sent and nothing is saved.
- **Reaction removal.** Removing a reaction that matches none on the
  Discord message throws. It is not a no-op.
- **Deletes.** On either side, a delete removes the correlation from the
  history before the other platform is called.
- **Reaction refresh.** After a reaction is added or removed, the message
  is refetched and saved again under the same timestamp. This saves a
  duplicate queue entry.

## Model

| member | source | states |
|---|---|---|
| History.Save | src/main/java/com/csanford/dsdbot/MessageHistory.java:81-90 | After a save, looking up the saved key gives the saved value, because the put comes after any eviction |
| History.Drop | src/main/java/com/csanford/dsdbot/MessageHistory.java:37-53 | After a remove, looking up the removed key gives null |
| History.DropKeepsOthers | src/main/java/com/csanford/dsdbot/MessageHistory.java:37-53 | A remove changes the lookup of no other key |
| History.RemoveFirstSplices | src/main/java/com/csanford/dsdbot/MessageHistory.java:37-41 | `Queue.remove(Object)` splices out the first occurrence only and keeps the order of the rest; a queue without the key is unchanged |
| History.SaveAppends | src/main/java/com/csanford/dsdbot/MessageHistory.java:81-90 | Below the bound, a save appends the key to the queue and changes only the saved key's mapping |
| History.SaveEvictsOldest | src/main/java/com/csanford/dsdbot/MessageHistory.java:83-89 | At 999 queued keys, a save evicts exactly the queue head and its mapping, maps the new key and changes nothing else |
| History.SavePreservesConsistent | src/main/java/com/csanford/dsdbot/MessageHistory.java:81-90 | A save keeps the queue at or under 999 keys and keeps every mapped key queued |
| History.DropPreservesConsistent | src/main/java/com/csanford/dsdbot/MessageHistory.java:37-53 | A remove keeps the queue bound and keeps every mapped key queued |
| History.ConsistentBounds | src/main/java/com/csanford/dsdbot/MessageHistory.java:84-88 | In a consistent direction, map size <= queue size <= MAX_MSG_HISTORY - 1 |
| History.RunStaysBounded | src/main/java/com/csanford/dsdbot/MessageHistory.java:37-106 | After any sequence of saves, removes and lookups from a consistent direction (such as a fresh one), the direction is still consistent and map size <= queue size <= 999 |
| History.SaveAllQueuesNewest | src/main/java/com/csanford/dsdbot/MessageHistory.java:83-88 | After any saves into a fresh direction, the queue holds exactly the keys of the newest 999 saves, in insertion order |
| History.SaveAllKeepsNewest | src/main/java/com/csanford/dsdbot/MessageHistory.java:81-90 | After saving distinct keys into a fresh direction, the newest 999 are mapped to their values and every older one is gone; with 1000 saves exactly the first is gone |
| History.ResavedKeyLostWithOlderCopy | src/main/java/com/csanford/dsdbot/MessageHistory.java:83-89 | Re-saving a queued key appends a second copy. Evicting the older copy removes the live mapping while the newer copy stays queued |
| History.MessageHistory.constructor | src/main/java/com/csanford/dsdbot/MessageHistory.java:23-29 | A new store has two empty, consistent directions |
| History.MessageHistory.RemoveSlackMessage | src/main/java/com/csanford/dsdbot/MessageHistory.java:37-41 | Returns the stored timestamp or null; the Discord -> Slack direction becomes Drop of the old one, and Slack -> Discord is unchanged |
| History.MessageHistory.RemoveDiscordMessage | src/main/java/com/csanford/dsdbot/MessageHistory.java:49-53 | Returns the stored message or null; the Slack -> Discord direction becomes Drop of the old one, and Discord -> Slack is unchanged |
| History.MessageHistory.GetSlackTimestamp | src/main/java/com/csanford/dsdbot/MessageHistory.java:60-63 | Returns the mapped timestamp exactly when the ID is mapped, and changes nothing |
| History.MessageHistory.GetDiscordMessage | src/main/java/com/csanford/dsdbot/MessageHistory.java:70-73 | Returns the mapped message exactly when the timestamp is mapped, and changes nothing |
| History.MessageHistory.SaveDiscordMessage | src/main/java/com/csanford/dsdbot/MessageHistory.java:81-90 | The Slack -> Discord direction becomes Save of the old one, Discord -> Slack is unchanged, and the store stays consistent |
| History.MessageHistory.SaveSlackMessage | src/main/java/com/csanford/dsdbot/MessageHistory.java:98-106 | The Discord -> Slack direction becomes Save of the old one, Slack -> Discord is unchanged, and the store stays consistent |
| UserBiMap.PutAllKeys | src/main/java/com/csanford/dsdbot/constants/UserBiMap.java:19-34 | After the puts, the keys of a table are exactly the keys put |
| UserBiMap.PutAllLast | src/main/java/com/csanford/dsdbot/constants/UserBiMap.java:19-34 | A key gets the value of the last put for it |
| UserBiMap.PutAllUntouched | src/main/java/com/csanford/dsdbot/constants/UserBiMap.java:19-34 | A key that no later put names keeps its value |
| UserBiMap.NotPut | src/main/java/com/csanford/dsdbot/constants/UserBiMap.java:19-34 | A key that no put names is not in the table |
| UserBiMap.GetPrefersDiscordTable | src/main/java/com/csanford/dsdbot/constants/UserBiMap.java:37-40 | `get` gives the Discord -> Slack entry when there is one, otherwise the Slack -> Discord entry, otherwise null |
| UserBiMap.GetOrDefault | src/main/java/com/csanford/dsdbot/constants/UserBiMap.java:42-45 | Gives the default exactly when `get` gives null, and `get`'s value otherwise |
| UserBiMap.DiscordIdGetsSlackId | src/main/java/com/csanford/dsdbot/constants/UserBiMap.java:20-25 | With distinct configured IDs, each person's Discord ID gets their Slack ID |
| UserBiMap.SlackIdNotInDtos | src/main/java/com/csanford/dsdbot/constants/UserBiMap.java:19-26 | With distinct configured IDs, no person's Slack ID is a key of the Discord -> Slack table |
| UserBiMap.SlackIdInStod | src/main/java/com/csanford/dsdbot/constants/UserBiMap.java:28-34 | With distinct configured IDs, the Slack -> Discord table maps each person's Slack ID to their Discord ID |
| UserBiMap.SlackIdGetsDiscordId | src/main/java/com/csanford/dsdbot/constants/UserBiMap.java:37-40 | With distinct configured IDs, `get` of each person's Slack ID gives their Discord ID |
| UserBiMap.ConfiguredUserRoundTrip | src/main/java/com/csanford/dsdbot/constants/UserBiMap.java:19-40 | For each configured person, the two tables are inverse: `get(get(did)) == did` |
| UserBiMap.BotIdGetsBotName | src/main/java/com/csanford/dsdbot/constants/UserBiMap.java:26 | The bot's Discord ID always gets "dsd-bot", because its pair is put last |
| UserBiMap.BotNameHasNoReverse | src/main/java/com/csanford/dsdbot/constants/UserBiMap.java:26-40 | Unless it is somebody's ID, "dsd-bot" has no entry in either table, so `get` gives null |
| Strings.SplitConcat | src/main/java/com/csanford/dsdbot/constants/Constants.java:13 | The look-around split loses no character: its pieces concatenate back to the input |
| Strings.TokenIsWholePiece | src/main/java/com/csanford/dsdbot/connector/DiscordConnector.java:167-168 | A token that occurs in the text comes out of the split as one whole piece |
| Strings.SplitNoCut | src/main/java/com/csanford/dsdbot/connector/SlackConnector.java:261 | A text in which the delimiter matches nowhere inside splits into itself alone |
| Strings.IndexOf | src/main/java/com/csanford/dsdbot/connector/SlackConnector.java:135 | Gives -1 exactly when the character is absent, otherwise the index of its first occurrence |
| Strings.ReplaceAllOnce | src/main/java/com/csanford/dsdbot/connector/DiscordConnector.java:173 | `ReplaceAll`, the literal replace of `String.replace` and of `replaceAll` with a plain ID: a target whose first character occurs nowhere else is replaced once and the rest is kept |
| Strings.ReplaceAllAbsent | src/main/java/com/csanford/dsdbot/connector/DiscordConnector.java:173 | `ReplaceAll` leaves a text in which the target's first character does not occur unchanged |
| Strings.ReplaceAllNotContained | src/main/java/com/csanford/dsdbot/connector/SlackConnector.java:236 | `ReplaceAll` leaves a text that does not contain the target unchanged |
| Strings.ReplaceAllSingle | src/main/java/com/csanford/dsdbot/connector/SlackConnector.java:236 | `ReplaceAll` replaces a target that occurs exactly once, and keeps the text before and after it |
| Strings.StripAngles | src/main/java/com/csanford/dsdbot/connector/SlackConnector.java:237 | No '<' or '>' is left in the result |
| Strings.StripAnglesAppend | src/main/java/com/csanford/dsdbot/connector/SlackConnector.java:237 | Stripping distributes over concatenation |
| Discord.MentionTokensDelimited | src/main/java/com/csanford/dsdbot/connector/DiscordConnector.java:168 | A Discord mention token opens with '<', closes with '>' and holds neither in between |
| Discord.MentionIdOfToken | src/main/java/com/csanford/dsdbot/connector/DiscordConnector.java:173 | Removing every "!", "<@" and ">" from a mention token leaves exactly its 17 or 18 digits |
| Discord.SlackText | src/main/java/com/csanford/dsdbot/connector/DiscordConnector.java:164-165 | The converted text always starts with `*name*: ` |
| Discord.RenderMention | src/main/java/com/csanford/dsdbot/connector/DiscordConnector.java:171-176 | A mention token becomes `<@` + the mapped Slack ID + `>` on a hit, and `<@` + the whole token + `>` on a miss |
| Discord.SlackTextVerbatim | src/main/java/com/csanford/dsdbot/connector/DiscordConnector.java:169-180 | When no piece starts with "<@", the result is the attribution followed by the content |
| Discord.NoTokenSinglePiece | src/main/java/com/csanford/dsdbot/connector/DiscordConnector.java:167-168 | Content without a mention token splits into itself alone |
| Discord.LiteralContentForwarded | src/main/java/com/csanford/dsdbot/connector/DiscordConnector.java:177-180 | Content without a token that does not start with "<@" is forwarded unchanged after the attribution |
| Discord.NonTokenMentionPrefixRewritten | src/main/java/com/csanford/dsdbot/connector/DiscordConnector.java:171-176 | Content without a token that starts with "<@" is still rewritten as a mention of the lookup of its stripped text, or of the whole text on a miss |
| Discord.MentionForwarded | src/main/java/com/csanford/dsdbot/connector/DiscordConnector.java:167-176 | Every mention token in the content reaches Slack, as the mapped user's mention on a hit and as the re-wrapped token on a miss |
| Discord.DiscordConnector.constructor | src/main/java/com/csanford/dsdbot/connector/DiscordConnector.java:44-48 | The listener keeps the shared history it is given |
| Discord.DiscordConnector.ConvertDiscordMessage | src/main/java/com/csanford/dsdbot/connector/DiscordConnector.java:162-184 | The loop over the split pieces builds exactly SlackText |
| Discord.DiscordConnector.OnMessageReceived | src/main/java/com/csanford/dsdbot/connector/DiscordConnector.java:57-75 | Forwards only when the bot is mentioned and the author is no bot; then it sends the converted text and records the Discord ID -> returned timestamp. Otherwise nothing is sent and nothing changes |
| Discord.DiscordConnector.OnMessageDelete | src/main/java/com/csanford/dsdbot/connector/DiscordConnector.java:84-94 | Removes the correlation first; it deletes the Slack message only when a timestamp was stored |
| Discord.DiscordConnector.OnMessageUpdate | src/main/java/com/csanford/dsdbot/connector/DiscordConnector.java:103-114 | Updates the Slack message with the converted text only when a timestamp is stored; never changes the history |
| Discord.DiscordConnector.OnMessageReactionAdd | src/main/java/com/csanford/dsdbot/connector/DiscordConnector.java:123-133 | Adds the emoji's alias on Slack only when a timestamp is stored; never changes the history |
| Discord.DiscordConnector.OnMessageReactionRemove | src/main/java/com/csanford/dsdbot/connector/DiscordConnector.java:142-152 | Removes the emoji's alias on Slack only when a timestamp is stored; never changes the history |
| Slack.MentionTokensDelimited | src/main/java/com/csanford/dsdbot/connector/SlackConnector.java:261 | A Slack mention token opens with '<', closes with '>' and holds neither in between |
| Slack.FindUser | src/main/java/com/csanford/dsdbot/connector/SlackConnector.java:275-278 | Gives the first user whose ID equals the given one ignoring case, and nothing exactly when there is no such user |
| Slack.TranslateFailsIffPartFails | src/main/java/com/csanford/dsdbot/connector/SlackConnector.java:263-284 | The conversion throws exactly when one of the pieces throws |
| Slack.TranslateJoins | src/main/java/com/csanford/dsdbot/connector/SlackConnector.java:263-284 | When no piece throws, the body is the pieces' texts joined in order |
| Slack.VerbatimWithoutMentions | src/main/java/com/csanford/dsdbot/connector/SlackConnector.java:261-284 | When no piece starts with "<@", the content is forwarded verbatim after the attribution |
| Slack.ForwardedStartsWithAttribution | src/main/java/com/csanford/dsdbot/connector/SlackConnector.java:256-259 | A converted message starts with `**name**: `, and with nothing when the sender is null |
| Slack.MentionResolved | src/main/java/com/csanford/dsdbot/connector/SlackConnector.java:265-279 | The user ID of a mention token is the token without its first two and last characters. The result contains what that ID resolves to, and the conversion throws when it resolves to nothing |
| Slack.MappedUserBecomesDiscordMention | src/main/java/com/csanford/dsdbot/connector/SlackConnector.java:270-272 | `Resolve`, the try block: a mapped user whom Discord knows becomes the Discord user's mention |
| Slack.UnmappedUserBecomesName | src/main/java/com/csanford/dsdbot/connector/SlackConnector.java:270-279 | `Resolve`, the catch block: when the ID has no mapping or `getUserById` rejects the mapped ID, the name of the first Slack user with that ID (ignoring case) is used |
| Slack.UnknownUserFails | src/main/java/com/csanford/dsdbot/connector/SlackConnector.java:273-279 | `Resolve`, the catch block: when, in addition, no Slack user has that ID, `Optional.get` throws and the mention resolves to nothing |
| Slack.ReplaceUserIdsStripsAngles | src/main/java/com/csanford/dsdbot/connector/SlackConnector.java:233-238 | With at least one Slack user no '<' or '>' survives; with none the text is unchanged |
| Slack.MentionOfOnlyUser | src/main/java/com/csanford/dsdbot/connector/SlackConnector.java:233-238 | With a single user, a mention `<@id>` becomes "@" and the user's name with its angle brackets stripped |
| Slack.MentionOfUser | src/main/java/com/csanford/dsdbot/connector/SlackConnector.java:231-238 | For the k-th of any list of users, a mention `<@id>` anywhere in bracket-free text becomes "@" and the user's name with its angle brackets stripped, the text around it kept. The side conditions: the ID occurs only in the mention, and no other user's ID occurs in the text as it stands when that user is processed |
| Slack.ThroughFirstSpace | src/main/java/com/csanford/dsdbot/connector/SlackConnector.java:135 | The old text up to and including its first space, and empty when it has no space |
| Slack.EditKeepsAttribution | src/main/java/com/csanford/dsdbot/connector/SlackConnector.java:133-136 | An edit keeps the `**name**: ` attribution of a forwarded message whose sender name has no space |
| Slack.FirstMatching | src/main/java/com/csanford/dsdbot/connector/SlackConnector.java:194-202 | Gives the reaction at an index k that equals the emoji ignoring case, where no reaction before k does (`findFirst`); gives nothing exactly when no reaction matches |
| Slack.SlackConnector.constructor | src/main/java/com/csanford/dsdbot/connector/SlackConnector.java:50-56 | The listener keeps the shared history it is given |
| Slack.SlackConnector.ConvertSlackMessage | src/main/java/com/csanford/dsdbot/connector/SlackConnector.java:252-287 | The loop over the split pieces builds exactly DiscordText for the directory of the call, and stops with a failure at the first piece that throws |
| Slack.SlackConnector.ConvertSlackMessageNamed | src/main/java/com/csanford/dsdbot/connector/SlackConnector.java:226-248 | The loop over the users listed at the time of the call builds exactly the per-user replace-and-strip, with `**sender**: ` only for a known sender |
| Slack.SlackConnector.OnMessagePosted | src/main/java/com/csanford/dsdbot/connector/SlackConnector.java:96-119 | Forwards only when the sender is not the bot, the content contains "@" + the bot's ID, and the conversion does not throw, with the Slack users and the Discord lookup as they are at the event; then it records timestamp -> sent message. Otherwise nothing is sent and nothing changes |
| Slack.SlackConnector.OnMessageUpdated | src/main/java/com/csanford/dsdbot/connector/SlackConnector.java:126-144 | For a stored message, it edits the message to the old text through its first space followed by the sender-less conversion over the Slack users listed at the event; the history is never changed |
| Slack.SlackConnector.OnMessageDeleted | src/main/java/com/csanford/dsdbot/connector/SlackConnector.java:151-164 | Removes the correlation first; it deletes the Discord message only when one was stored |
| Slack.SlackConnector.UpdateDiscordMessage | src/main/java/com/csanford/dsdbot/connector/SlackConnector.java:211-216 | Refetches the message by its ID and saves the refetched message under the timestamp again |
| Slack.SlackConnector.OnReactionAdded | src/main/java/com/csanford/dsdbot/connector/SlackConnector.java:170-184 | For a stored message, it adds the emoji's unicode, then refetches and re-saves; otherwise it does nothing |
| Slack.SlackConnector.OnReactionRemoved | src/main/java/com/csanford/dsdbot/connector/SlackConnector.java:186-209 | For a stored message, it removes the first reaction that matches ignoring case, then refetches and re-saves. It fails, with no call and no change, when no reaction matches |

## Left out

- The Slack and Discord SDKs are not part of this model. They cover
  connecting, channel lookup, sending, editing, deleting, reacting and
  refetching. A call is returned as a value, and an answer is a parameter.
  A failed SDK call, such as a rejected send, is not modelled.
- `App.java` is not part of this model. It only creates one history and
  the two connectors that share it, and a connector here is given its
  history.
- The `SecureConstants` IDs and tokens are not part of this model. The IDs
  are the `SecureConstants` parameter. `Constants.MAX_MSG_HISTORY` (1000)
  is a constant, and the two channel names are not used.
- Concurrency is left out: listener threads, the `HashMap`s shared with a
  `ConcurrentLinkedQueue`, and `.queue` callbacks. Handlers run one after
  another, and the completion callback of a reaction runs right after the
  reaction call.
- Logging is left out.
- The MessageHistory fields are static, so each new instance resets the
  store for every holder. The model has one store, shared by both
  connectors, and its constructor makes a fresh one.
- Keys and message IDs are unbounded integers, not 64-bit `Long`s. Nothing
  in the core does arithmetic on them.
- EmojiManager is a total function in the model: unicode -> first alias on
  the Discord side, alias -> unicode on the Slack side. Its null results,
  which throw NullPointerException in the source, are not modelled.
- `jda.getUserById` is an `Option` function of the mapped ID. None stands
  for the IllegalArgumentException that the source catches, as happens for
  a null or non-numeric ID such as "dsd-bot".
- A `null` user that `jda.getUserById` returns for an uncached ID is not
  modelled.
- A null sender on a posted Slack message is not modelled. The posted
  listener reads the sender's ID, so such a sender would throw.
- The duplicate-key exception of `Collectors.toMap` is not modelled. The
  three-argument conversion takes the Slack users in the order of the
  session's list, where the source uses the iteration order of a
  `HashMap`. With several users, the result can depend on that order.
- `replaceAll(id, name)` is modelled as a literal replace-all. A user ID
  with regular-expression meta-characters, or a name with `$` or `\`,
  would behave differently in the source.
- Slack.MentionOfUser: covers one mention whose ID occurs nowhere else in
  the text. Several mentions in one edit, or a user ID that occurs inside
  another user's name, are left to the definition `ReplaceUserIds` and not
  described by a lemma.
- `equalsIgnoreCase` folds ASCII letters only. Non-ASCII case folding is
  not modelled.
- The limits of `MessageBuilder.build` are not modelled. It throws on an
  empty message and on one longer than 2000 characters, so a conversion
  that builds such a message still counts as successful here.
- A resolved Discord user is appended as the text that the `discordUser`
  parameter gives for it. What `MessageBuilder.append` renders for a `User`
  is not part of this model.
