/**
 * The key-value store as the bot sees it: one Redis hash per chat, whose fields are
 * lower-cased usernames and whose values are the stored notes. The four commands the bot
 * issues (HSET, HDEL, HGET, HGETALL) are functions of the whole store.
 */
module Store {
  import opened Wrappers

  /** Telegram's chat identifier, the Redis key of the chat's hash. */
  type ChatId = int
  /** One Redis hash: field name to value. */
  type Hash = map<string, string>
  /** The whole database as the bot uses it. */
  type Db = map<ChatId, Hash>

  /** Redis never keeps a hash without fields: removing the last field removes the key. */
  predicate NoEmptyHash(db: Db) {
    forall c :: c in db ==> db[c] != map[]
  }

  /** HGET key field: the value, or null when the key or the field does not exist. */
  function HGet(db: Db, c: ChatId, f: string): (r: Option<string>)
    ensures r.Some? <==> c in db && f in db[c]
    ensures r.Some? ==> r.value == db[c][f]
  {
    if c in db && f in db[c] then Some(db[c][f]) else None
  }

  /** HGETALL key: the hash's fields, or null (as the bot's Redis client reports it) when the key does not exist. */
  function HGetAll(db: Db, c: ChatId): (r: Option<Hash>)
    ensures r.None? ==> forall f :: HGet(db, c, f) == None
    ensures NoEmptyHash(db) && r.Some? ==> r.value != map[]
    ensures r.Some? ==> forall f :: f in r.value ==> HGet(db, c, f) == Some(r.value[f])
    ensures r.Some? ==> forall f :: f !in r.value ==> HGet(db, c, f) == None
  {
    if c in db then Some(db[c]) else None
  }

  /** HSET key field value: the field now holds the value; every other field of every chat is as before. */
  function HSet(db: Db, c: ChatId, f: string, v: string): (r: Db)
    ensures HGet(r, c, f) == Some(v)
    ensures forall c', f' :: (c' != c || f' != f) ==> HGet(r, c', f') == HGet(db, c', f')
    ensures r.Keys == db.Keys + {c}
    ensures NoEmptyHash(db) ==> NoEmptyHash(r)
  {
    db[c := (if c in db then db[c] else map[])[f := v]]
  }

  /**
   * HDEL key field: the field is gone; every other field of every chat is as before; deleting
   * a field that is not there changes nothing.
   */
  function HDel(db: Db, c: ChatId, f: string): (r: Db)
    ensures HGet(r, c, f) == None
    ensures forall c', f' :: (c' != c || f' != f) ==> HGet(r, c', f') == HGet(db, c', f')
    ensures HGet(db, c, f) == None ==> r == db
    ensures NoEmptyHash(db) ==> NoEmptyHash(r)
  {
    if c in db && f in db[c] then
      var h := db[c] - {f};
      if h == map[] then
        assert forall g :: g in db[c] ==> g == f || g in h;
        db - {c}
      else
        db[c := h]
    else
      db
  }

  /**
   * A store without empty hashes is determined by what HGET answers: two such stores that
   * agree on every field of every chat are the same store.
   */
  lemma SameFieldsSameDb(a: Db, b: Db)
    requires NoEmptyHash(a) && NoEmptyHash(b)
    requires forall c, f :: HGet(a, c, f) == HGet(b, c, f)
    ensures a == b
  {
    forall c | c in a ensures c in b && a[c] == b[c] {
      var f :| f in a[c];
      assert HGet(a, c, f).Some?;
      assert HGet(b, c, f).Some?;
      forall g ensures (g in a[c] <==> g in b[c]) && (g in a[c] ==> a[c][g] == b[c][g]) {
        assert HGet(a, c, g) == HGet(b, c, g);
      }
    }
    forall c | c in b ensures c in a {
      var f :| f in b[c];
      assert HGet(b, c, f) == HGet(a, c, f);
    }
  }

  /** A second HSET of the same field replaces the first value; it never appends. */
  lemma HSetReplaces(db: Db, c: ChatId, f: string, v1: string, v2: string)
    ensures HSet(HSet(db, c, f, v1), c, f, v2) == HSet(db, c, f, v2)
  {
    var h := if c in db then db[c] else map[];
    assert h[f := v1][f := v2] == h[f := v2];
  }

  /** HDEL after HSET of a field leaves the store as HDEL alone would: the write is undone. */
  lemma HDelUndoesHSet(db: Db, c: ChatId, f: string, v: string)
    requires NoEmptyHash(db)
    ensures HDel(HSet(db, c, f, v), c, f) == HDel(db, c, f)
  {
    var lhs, rhs := HDel(HSet(db, c, f, v), c, f), HDel(db, c, f);
    forall c', f' ensures HGet(lhs, c', f') == HGet(rhs, c', f') {
    }
    SameFieldsSameDb(lhs, rhs);
  }
}
