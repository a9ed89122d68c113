/**
 * UserBiMap: the fixed identity tables between Discord user IDs and Slack
 * user IDs. Both tables are built once from the secret configuration, by
 * one `put` after another, and only read afterwards; here they are
 * functions of that configuration.
 */
module UserBiMap {
  import opened Wrappers

  /** A configured person: a Discord user ID and a Slack user ID. */
  datatype Account = Account(did: string, sid: string)

  /** The configured IDs (the *_DID / *_SID constants of SecureConstants). */
  datatype SecureConstants = SecureConstants(
    randy: Account, jacob: Account, mason: Account,
    cora: Account, will: Account, cody: Account,
    dsdDid: string)

  /** What the bot's own Discord ID maps to. */
  const BotName := "dsd-bot"

  function Accounts(c: SecureConstants): seq<Account> {
    [c.randy, c.jacob, c.mason, c.cora, c.will, c.cody]
  }

  /** `HashMap.put` of each pair in turn: a later pair for the same key overwrites an earlier one. */
  function PutAll(m: map<string, string>, entries: seq<(string, string)>): map<string, string>
    decreases |entries|
  {
    if entries == [] then m
    else PutAll(m[entries[0].0 := entries[0].1], entries[1..])
  }

  /** The keys after the puts are the keys before and the keys of the pairs. */
  lemma {:induction false} PutAllKeys(m: map<string, string>, entries: seq<(string, string)>)
    ensures PutAll(m, entries).Keys == m.Keys + set e | e in entries :: e.0
    decreases |entries|
  {
    if entries != [] {
      PutAllKeys(m[entries[0].0 := entries[0].1], entries[1..]);
      assert (set e | e in entries :: e.0) == {entries[0].0} + set e | e in entries[1..] :: e.0;
    }
  }

  /** The last pair put for a key decides its value. */
  lemma {:induction false} PutAllLast(m: map<string, string>, entries: seq<(string, string)>, i: nat)
    requires i < |entries|
    requires forall j :: i < j < |entries| ==> entries[j].0 != entries[i].0
    ensures entries[i].0 in PutAll(m, entries) && PutAll(m, entries)[entries[i].0] == entries[i].1
    decreases |entries|
  {
    var m' := m[entries[0].0 := entries[0].1];
    if i == 0 {
      PutAllUntouched(m', entries[1..], entries[0].0);
    } else {
      PutAllLast(m', entries[1..], i - 1);
    }
  }

  /** A key no later pair mentions keeps its value. */
  lemma {:induction false} PutAllUntouched(m: map<string, string>, entries: seq<(string, string)>, key: string)
    requires key in m
    requires forall j :: 0 <= j < |entries| ==> entries[j].0 != key
    ensures key in PutAll(m, entries) && PutAll(m, entries)[key] == m[key]
    decreases |entries|
  {
    if entries != [] {
      PutAllUntouched(m[entries[0].0 := entries[0].1], entries[1..], key);
    }
  }

  function DtosEntries(c: SecureConstants): seq<(string, string)> {
    [ (c.randy.did, c.randy.sid), (c.jacob.did, c.jacob.sid), (c.mason.did, c.mason.sid),
      (c.cora.did, c.cora.sid), (c.will.did, c.will.sid), (c.cody.did, c.cody.sid),
      (c.dsdDid, BotName) ]
  }

  function StodEntries(c: SecureConstants): seq<(string, string)> {
    [ (c.randy.sid, c.randy.did), (c.jacob.sid, c.jacob.did), (c.mason.sid, c.mason.did),
      (c.cora.sid, c.cora.did), (c.will.sid, c.will.did), (c.cody.sid, c.cody.did) ]
  }

  /** DTOS_USERS: Discord user ID to Slack user ID, plus the bot's Discord ID to "dsd-bot". */
  function DtosUsers(c: SecureConstants): map<string, string> {
    PutAll(map[], DtosEntries(c))
  }

  /** STOD_USERS: Slack user ID to Discord user ID. */
  function StodUsers(c: SecureConstants): map<string, string> {
    PutAll(map[], StodEntries(c))
  }

  /** `UserBiMap.get`: the Discord -> Slack table first, else the Slack -> Discord table; None stands for null. */
  function Get(c: SecureConstants, key: string): Option<string> {
    var fallback := if key in StodUsers(c) then Some(StodUsers(c)[key]) else None;
    if key in DtosUsers(c) then Some(DtosUsers(c)[key]) else fallback
  }

  /**
   * A key of the Discord -> Slack table gets its entry there; any other key
   * gets its Slack -> Discord entry, or null when neither table has it.
   */
  lemma GetPrefersDiscordTable(c: SecureConstants, key: string)
    ensures key in DtosUsers(c) ==> Get(c, key) == Some(DtosUsers(c)[key])
    ensures key !in DtosUsers(c) && key in StodUsers(c) ==> Get(c, key) == Some(StodUsers(c)[key])
    ensures key !in DtosUsers(c) && key !in StodUsers(c) ==> Get(c, key) == None
  {
  }

  /** `UserBiMap.getOrDefault` */
  function GetOrDefault(c: SecureConstants, key: string, default: string): (r: string)
    ensures Get(c, key) == None ==> r == default
    ensures Get(c, key) != None ==> Get(c, key) == Some(r)
  {
    match Get(c, key)
    case None => default
    case Some(v) => v
  }

  /**
   * No two configured people share a Discord ID or a Slack ID, the bot's
   * Discord ID is nobody's, and no Slack ID is also a Discord ID.
   */
  ghost predicate DistinctIds(c: SecureConstants) {
    var a := Accounts(c);
    && (forall i, j :: 0 <= i < j < |a| ==> a[i].did != a[j].did && a[i].sid != a[j].sid)
    && (forall i :: 0 <= i < |a| ==> a[i].did != c.dsdDid && a[i].sid != c.dsdDid)
    && (forall i, j :: 0 <= i < |a| && 0 <= j < |a| ==> a[i].sid != a[j].did)
  }

  /** A key that no pair mentions is not a key of the table. */
  lemma NotPut(m: map<string, string>, entries: seq<(string, string)>, key: string)
    requires key !in m
    requires forall j :: 0 <= j < |entries| ==> entries[j].0 != key
    ensures key !in PutAll(m, entries)
  {
    PutAllKeys(m, entries);
  }

  /** A configured person's Discord ID gets their Slack ID. */
  lemma DiscordIdGetsSlackId(c: SecureConstants, i: nat)
    requires DistinctIds(c) && i < 6
    ensures Get(c, Accounts(c)[i].did) == Some(Accounts(c)[i].sid)
  {
    var a := Accounts(c);
    var es := DtosEntries(c);
    assert forall j :: 0 <= j < 6 ==> es[j] == (a[j].did, a[j].sid);
    assert es[6] == (c.dsdDid, BotName);
    PutAllLast(map[], es, i);
  }

  lemma SlackIdNotInDtos(c: SecureConstants, i: nat)
    requires DistinctIds(c) && i < 6
    ensures Accounts(c)[i].sid !in DtosUsers(c)
  {
    var a := Accounts(c);
    var es := DtosEntries(c);
    assert forall j :: 0 <= j < 6 ==> es[j] == (a[j].did, a[j].sid);
    assert es[6] == (c.dsdDid, BotName);
    NotPut(map[], es, a[i].sid);
  }

  lemma SlackIdInStod(c: SecureConstants, i: nat)
    requires DistinctIds(c) && i < 6
    ensures Accounts(c)[i].sid in StodUsers(c) && StodUsers(c)[Accounts(c)[i].sid] == Accounts(c)[i].did
  {
    var a := Accounts(c);
    var ss := StodEntries(c);
    assert forall j :: 0 <= j < 6 ==> ss[j] == (a[j].sid, a[j].did);
    PutAllLast(map[], ss, i);
  }

  /** A configured person's Slack ID gets their Discord ID, since it is no key of the Discord -> Slack table. */
  lemma SlackIdGetsDiscordId(c: SecureConstants, i: nat)
    requires DistinctIds(c) && i < 6
    ensures Get(c, Accounts(c)[i].sid) == Some(Accounts(c)[i].did)
  {
    SlackIdNotInDtos(c, i);
    SlackIdInStod(c, i);
  }

  /**
   * For every configured person the two tables are inverse: looking up the
   * Slack ID that the Discord ID gets gives the Discord ID back.
   */
  lemma ConfiguredUserRoundTrip(c: SecureConstants, i: nat)
    requires DistinctIds(c) && i < 6
    ensures Get(c, Accounts(c)[i].did).Some?
    ensures Get(c, Get(c, Accounts(c)[i].did).value) == Some(Accounts(c)[i].did)
  {
    DiscordIdGetsSlackId(c, i);
    SlackIdGetsDiscordId(c, i);
  }

  /** The bot's Discord ID always gets "dsd-bot": its pair is put last. */
  lemma BotIdGetsBotName(c: SecureConstants)
    ensures Get(c, c.dsdDid) == Some(BotName)
  {
    PutAllLast(map[], DtosEntries(c), 6);
  }

  /** "dsd-bot" has no reverse entry: unless it is somebody's ID, looking it up gives null. */
  lemma BotNameHasNoReverse(c: SecureConstants)
    requires c.dsdDid != BotName
    requires forall i :: 0 <= i < 6 ==> Accounts(c)[i].did != BotName && Accounts(c)[i].sid != BotName
    ensures Get(c, BotName) == None
  {
    var a := Accounts(c);
    assert forall j :: 0 <= j < 6 ==> DtosEntries(c)[j] == (a[j].did, a[j].sid);
    assert forall j :: 0 <= j < 6 ==> StodEntries(c)[j] == (a[j].sid, a[j].did);
    NotPut(map[], DtosEntries(c), BotName);
    NotPut(map[], StodEntries(c), BotName);
  }
}
