/** The in-process cache of decrypted payloads (message-storage.ts): bounded by entries and bytes, oldest
    use evicted first, and never a different answer from a fresh decrypt. */
module PayloadCache {
  import opened Optional
  import opened PayloadMigration
  import opened Sequences
  import opened StoredPayload
  import Utf8

  const MAX_ENTRIES: nat := 512
  const MAX_BYTES: nat := 67108864

  // ----- The size estimate -----

  function Bytes(text: string): nat {
    |Utf8.Encode(text)|
  }

  function BytesOr(text: Option<string>): nat {
    if text.None? then 0 else Bytes(text.value)
  }

  function TextBytes(list: seq<string>): nat {
    if list == [] then 0 else TextBytes(list[..|list| - 1]) + Bytes(list[|list| - 1])
  }

  function AddressBytes(list: seq<AddressEntry>): nat {
    if list == [] then 0
    else
      var last := list[|list| - 1];
      AddressBytes(list[..|list| - 1]) + 64 + Bytes(last.name) + Bytes(last.address)
  }

  function AttachmentBytes(list: seq<AttachmentEntry>): nat {
    if list == [] then 0
    else
      var last := list[|list| - 1];
      AttachmentBytes(list[..|list| - 1])
      + 192 + Bytes(last.partId) + Bytes(last.filename) + Bytes(last.contentType) + BytesOr(last.contentId)
  }

  function Estimate(p: Payload): nat {
    256 + Bytes(p.subject) + Bytes(p.fromName) + Bytes(p.fromAddress) + Bytes(p.snippet)
    + Bytes(p.textBody) + Bytes(p.htmlBody) + BytesOr(p.messageId) + BytesOr(p.inReplyTo)
    + (if p.references.None? then 0 else TextBytes(p.references.value))
    + AddressBytes(p.to) + (if p.cc.None? then 0 else AddressBytes(p.cc.value))
    + (if p.attachments.None? then 0 else AttachmentBytes(p.attachments.value))
  }

  // ----- Keys and entries -----

  /** Master key, message id and full ciphertext, joined by NUL in the code. */
  datatype CacheKey = CacheKey(key: Key, id: Id, envelope: Envelope)

  /** The joined text names one key as long as neither the hex of the master key nor the id holds a NUL. */
  lemma JoinedKeyIsUnique(hex: string, id: string, cipher: string, hex': string, id': string, cipher': string)
    requires '\0' !in hex && '\0' !in hex' && '\0' !in id && '\0' !in id'
    requires hex + ['\0'] + (id + ['\0'] + cipher) == hex' + ['\0'] + (id' + ['\0'] + cipher')
    ensures hex == hex' && id == id' && cipher == cipher'
  {
    SplitUnique(hex, id + ['\0'] + cipher, hex', id' + ['\0'] + cipher', '\0');
    SplitUnique(id, cipher, id', cipher', '\0');
  }

  /** Entries in the order of a JavaScript map: least recently set first. */
  datatype Entry = Entry(key: CacheKey, payload: Payload, bytes: nat)

  function Keys(entries: seq<Entry>): seq<CacheKey> {
    seq(|entries|, i requires 0 <= i < |entries| => entries[i].key)
  }

  function BytesOf(x: Entry): nat {
    x.bytes
  }

  function Sum(entries: seq<Entry>): nat {
    Weighed(entries, BytesOf)
  }

  predicate Fits(entries: seq<Entry>, bytes: nat) {
    |entries| < MAX_ENTRIES && Sum(entries) + bytes <= MAX_BYTES
  }

  /** Room for `bytes`, made by dropping entries from the old end. */
  function Trimmed(entries: seq<Entry>, bytes: nat): seq<Entry> {
    if entries == [] || Fits(entries, bytes) then entries else Trimmed(entries[1..], bytes)
  }

  /** Eviction takes the oldest entries and not one more than it must. */
  lemma {:induction false} TrimmedIsLeast(entries: seq<Entry>, bytes: nat)
    requires bytes <= MAX_BYTES
    ensures var n := |entries| - |Trimmed(entries, bytes)|;
            && 0 <= n <= |entries| && Trimmed(entries, bytes) == entries[n..]
            && Fits(entries[n..], bytes) && (n > 0 ==> !Fits(entries[n - 1..], bytes))
  {
    if entries != [] && !Fits(entries, bytes) {
      TrimmedIsLeast(entries[1..], bytes);
      var n := |entries| - |Trimmed(entries, bytes)|;
      assert entries[1..][n - 1..] == entries[n..];
      if n > 1 {
        assert entries[1..][n - 2..] == entries[n - 1..];
      } else {
        assert entries[n - 1..] == entries;
      }
    }
  }

  function Without(entries: seq<Entry>, i: nat): seq<Entry>
    requires i < |entries|
  {
    entries[..i] + entries[i + 1..]
  }

  // ----- Recency -----

  function Drop(keys: seq<CacheKey>, k: CacheKey): seq<CacheKey> {
    if keys == [] then []
    else if keys[0] == k then Drop(keys[1..], k)
    else [keys[0]] + Drop(keys[1..], k)
  }

  /** The keys used so far, each once, in the order of their last use. */
  function Recency(uses: seq<CacheKey>): seq<CacheKey> {
    if uses == [] then []
    else Drop(Recency(uses[..|uses| - 1]), uses[|uses| - 1]) + [uses[|uses| - 1]]
  }

  ghost predicate Suffix<T>(s: seq<T>, whole: seq<T>) {
    |s| <= |whole| && whole[|whole| - |s|..] == s
  }

  lemma {:induction false} DropJoin(a: seq<CacheKey>, b: seq<CacheKey>, k: CacheKey)
    ensures Drop(a + b, k) == Drop(a, k) + Drop(b, k)
  {
    if a == [] {
      assert a + b == b;
    } else {
      assert (a + b)[1..] == a[1..] + b;
      DropJoin(a[1..], b, k);
    }
  }

  lemma {:induction false} DropAbsent(keys: seq<CacheKey>, k: CacheKey)
    requires k !in keys
    ensures Drop(keys, k) == keys
  {
    if keys != [] {
      DropAbsent(keys[1..], k);
      assert keys == [keys[0]] + keys[1..];
    }
  }

  /** Dropping a key from the whole and from its recent end keeps the one a suffix of the other. */
  lemma DropKeepsSuffix(s: seq<CacheKey>, whole: seq<CacheKey>, k: CacheKey)
    requires Suffix(s, whole)
    ensures Suffix(Drop(s, k), Drop(whole, k))
  {
    var older := whole[..|whole| - |s|];
    assert whole == older + s;
    DropJoin(older, s, k);
  }

  lemma DropAt(entries: seq<Entry>, i: nat)
    requires i < |entries| && NoneTwice(Keys(entries))
    ensures Drop(Keys(entries), entries[i].key) == Keys(Without(entries, i))
  {
    var keys, k := Keys(entries), entries[i].key;
    assert keys == keys[..i] + ([k] + keys[i + 1..]);
    assert keys[i] == k;
    assert forall j | 0 <= j < |keys| && j != i :: keys[j] != k;
    assert k !in keys[..i];
    assert k !in keys[i + 1..];
    hide NoneTwice, Keys;
    DropJoin(keys[..i], [k] + keys[i + 1..], k);
    DropJoin([k], keys[i + 1..], k);
    DropAbsent(keys[..i], k);
    DropAbsent(keys[i + 1..], k);
    assert Drop([k], k) == [];
    KeysWithout(entries, i);
  }

  lemma KeysWithout(entries: seq<Entry>, i: nat)
    requires i < |entries|
    ensures Keys(Without(entries, i)) == Keys(entries)[..i] + Keys(entries)[i + 1..]
  {
  }

  // ----- The cache -----

  /** What decrypting afresh gives for a key, for a row of this account. */
  function Fresh(k: CacheKey, account: string): Normalized {
    var plain := Open(k.envelope, k.key, Aad(account, k.id));
    if plain.None? then Invalid else Normalize(plain.value)
  }

  /** The key leaves the account out: a hit is what a fresh decrypt gives exactly for rows of the account the
      entry was decrypted for. */
  lemma HitIsFreshForOneAccount(k: CacheKey, payload: Payload, account: string, other: string)
    requires Fresh(k, account) == Ok(payload)
    ensures Fresh(k, other) == Ok(payload) <==> other == account
  {
    hide Normalize;
  }

  /** An entry holds what its ciphertext decrypts to for the message's account, with its own size. */
  ghost predicate Truthful(e: Entry, accountOf: Id -> string) {
    e.bytes == Estimate(e.payload) && Fresh(e.key, accountOf(e.key.id)) == Ok(e.payload)
  }

  /** The cached keys are the most recently used ones, in that order. */
  ghost predicate MostRecent(entries: seq<Entry>, uses: seq<CacheKey>) {
    NoneTwice(Keys(entries)) && Suffix(Keys(entries), Recency(uses))
  }

  class PayloadCacheMap {
    var entries: seq<Entry>
    var totalBytes: nat

    /** Which account each message id belongs to; and every use of a cacheable payload so far. */
    ghost const accountOf: Id -> string
    ghost var uses: seq<CacheKey>

    constructor (ghost accountOf: Id -> string)
      ensures this.accountOf == accountOf && Valid() && entries == [] && uses == []
    {
      this.accountOf := accountOf;
      entries, totalBytes, uses := [], 0, [];
    }

    ghost predicate Valid()
      reads this
    {
      && totalBytes == Sum(entries) && |entries| <= MAX_ENTRIES && totalBytes <= MAX_BYTES
      && (forall i | 0 <= i < |entries| :: Truthful(entries[i], accountOf))
      && MostRecent(entries, uses)
    }

    /** `cachePayload`: an oversize payload is left out, otherwise room is made from the old end. */
    method CachePayload(k: CacheKey, payload: Payload)
      requires Valid() && k !in Keys(entries) && Fresh(k, accountOf(k.id)) == Ok(payload)
      modifies this
      ensures Valid()
      ensures Estimate(payload) > MAX_BYTES ==> entries == old(entries) && uses == old(uses)
      ensures Estimate(payload) <= MAX_BYTES ==>
                && entries == Trimmed(old(entries), Estimate(payload)) + [Entry(k, payload, Estimate(payload))]
                && uses == old(uses) + [k]
    {
      hide Estimate, Fresh, MostRecent, Keys;
      var bytes := Estimate(payload);
      if bytes > MAX_BYTES {
        return;
      }
      while |entries| >= MAX_ENTRIES || totalBytes + bytes > MAX_BYTES
        invariant Valid() && uses == old(uses)
        invariant Trimmed(entries, bytes) == Trimmed(old(entries), bytes) && k !in Keys(entries)
        decreases |entries|
      {
        EvictStep(entries, uses, k);
        if |entries| == 0 {
          break;
        }
        totalBytes := totalBytes - entries[0].bytes;
        entries := entries[1..];
      }
      FillStep(entries, uses, Entry(k, payload, bytes));
      entries := entries + [Entry(k, payload, bytes)];
      totalBytes := totalBytes + bytes;
      uses := uses + [k];
    }

    /** Where a key is cached, if it is. */
    method Find(k: CacheKey) returns (i: nat)
      ensures i <= |entries|
      ensures if i < |entries| then entries[i].key == k else k !in Keys(entries)
    {
      i := 0;
      while i < |entries| && entries[i].key != k
        invariant i <= |entries| && forall j | 0 <= j < i :: entries[j].key != k
      {
        i := i + 1;
      }
    }

    /** A hit is deleted and set again, so it becomes the newest entry. */
    method Refresh(i: nat)
      requires Valid() && i < |entries|
      modifies this
      ensures Valid() && entries == Without(old(entries), i) + [old(entries[i])]
      ensures uses == old(uses) + [old(entries[i].key)]
    {
      hide Truthful, MostRecent, Sum;
      var cached := entries[i];
      HitStep(entries, uses, i);
      entries := Without(entries, i);
      entries := entries + [cached];
      uses := uses + [cached.key];
    }

    /** A read through the cache; `Invalid` is a throw. It answers what a fresh decrypt would. */
    method MessagePayloadForRow(row: Row, key: Key) returns (read: Normalized)
      requires Valid() && row.account == accountOf(row.id)
      modifies this
      ensures Valid() && read == PayloadOf(row, key)
    {
      hide Estimate, MostRecent, Sum, Normalize, Keys;
      if row.encrypted.None? || row.encrypted.value.EmptyText? {
        return Ok(LegacyPayload(row.columns));
      }
      var k := CacheKey(key, row.id, row.encrypted.value);
      var i := Find(k);
      if i < |entries| {
        read := Ok(entries[i].payload);
        assert Truthful(entries[i], accountOf);
        Refresh(i);
      } else {
        read := Fresh(k, row.account);
        if read.Ok? {
          CachePayload(k, read.payload);
        }
      }
    }
  }

  lemma EvictStep(entries: seq<Entry>, uses: seq<CacheKey>, k: CacheKey)
    requires MostRecent(entries, uses) && k !in Keys(entries)
    ensures entries != [] ==>
              && k !in Keys(entries[1..])
              && MostRecent(entries[1..], uses)
              && Sum(entries) == entries[0].bytes + Sum(entries[1..])
  {
    if entries != [] {
      assert Keys(entries[1..]) == Keys(entries)[1..];
    }
  }

  /** One more key, unlike the others, at the new end of both. */
  lemma NextKey(keys: seq<CacheKey>, uses: seq<CacheKey>, k: CacheKey)
    requires NoneTwice(keys) && k !in keys && Suffix(keys, Drop(Recency(uses), k))
    ensures NoneTwice(keys + [k]) && Suffix(keys + [k], Recency(uses + [k]))
  {
    assert (uses + [k])[..|uses|] == uses;
    var whole := Drop(Recency(uses), k);
    assert Recency(uses + [k]) == whole + [k];
    hide Recency, Drop;
    var n := |whole| - |keys|;
    assert (whole + [k])[n..] == whole[n..] + [k];
  }

  lemma FillStep(entries: seq<Entry>, uses: seq<CacheKey>, e: Entry)
    requires MostRecent(entries, uses) && e.key !in Keys(entries)
    ensures MostRecent(entries + [e], uses + [e.key]) && Sum(entries + [e]) == Sum(entries) + e.bytes
  {
    assert Keys(entries + [e]) == Keys(entries) + [e.key];
    hide Keys, NoneTwice, Suffix, Recency;
    DropKeepsSuffix(Keys(entries), Recency(uses), e.key);
    DropAbsent(Keys(entries), e.key);
    NextKey(Keys(entries), uses, e.key);
    WeighedJoin(entries, [e], BytesOf);
    assert Sum([e]) == e.bytes;
  }

  lemma HitStep(entries: seq<Entry>, uses: seq<CacheKey>, i: nat)
    requires MostRecent(entries, uses) && i < |entries|
    ensures var next := Without(entries, i) + [entries[i]];
            && MostRecent(next, uses + [entries[i].key])
            && Sum(next) == Sum(entries) && |next| == |entries|
  {
    var rest, k := Without(entries, i), entries[i].key;
    var next := rest + [entries[i]];
    assert Keys(next) == Keys(rest) + [k];
    assert |next| == |entries|;
    hide Keys, NoneTwice, Suffix, Recency, Without;
    DropKeepsSuffix(Keys(entries), Recency(uses), k);
    DropAt(entries, i);
    NoKeyLeft(entries, i);
    NextKey(Keys(rest), uses, k);
    SumOfMoved(entries, i);
  }

  lemma NoKeyLeft(entries: seq<Entry>, i: nat)
    requires NoneTwice(Keys(entries)) && i < |entries|
    ensures NoneTwice(Keys(Without(entries, i))) && entries[i].key !in Keys(Without(entries, i))
  {
    var keys, rest := Keys(entries), Keys(Without(entries, i));
    forall j | 0 <= j < |rest| ensures rest[j] == keys[if j < i then j else j + 1] && rest[j] != keys[i] { }
    forall j, k | 0 <= j < k < |rest| ensures rest[j] != rest[k] {
      assert keys[if j < i then j else j + 1] != keys[if k < i then k else k + 1];
    }
  }

  lemma SumOfMoved(entries: seq<Entry>, i: nat)
    requires i < |entries|
    ensures Sum(Without(entries, i) + [entries[i]]) == Sum(entries)
  {
    hide Weighed;
    var older, one, newer := entries[..i], [entries[i]], entries[i + 1..];
    assert entries == older + (one + newer);
    WeighedJoin(older, one + newer, BytesOf);
    WeighedJoin(one, newer, BytesOf);
    WeighedJoin(older, newer, BytesOf);
    WeighedJoin(older + newer, one, BytesOf);
  }
}
