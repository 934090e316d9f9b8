/**
 * The record store of lib/redis.ts: paste records kept in a key-value backend
 * under the key `paste:<id>`. The backend is a map from key to the record it
 * holds, already decoded; `PasteStore` is the client that reads and updates it.
 */
module RecordStore {
  import opened Wrappers

  /** A stored paste. Times are milliseconds since the epoch; `None` stands for `null`. */
  datatype PasteData = PasteData(
    content: string,
    createdAt: int,
    expiresAt: Option<int>,
    maxViews: Option<int>,
    views: int)

  const KeyPrefix: string := "paste:"

  /** The backend key of a paste. */
  function Key(id: string): (k: string)
    ensures |k| == |KeyPrefix| + |id| && k[..|KeyPrefix|] == KeyPrefix
  {
    KeyPrefix + id
  }

  predicate IsPasteKey(k: string)
  {
    |KeyPrefix| <= |k| && k[..|KeyPrefix|] == KeyPrefix
  }

  /** The id a paste key was built from. */
  function IdOfKey(k: string): string
    requires IsPasteKey(k)
  {
    k[|KeyPrefix|..]
  }

  /** The key scheme loses nothing: the id can be read back from the key. */
  lemma KeyRoundTrip(id: string)
    ensures IsPasteKey(Key(id)) && IdOfKey(Key(id)) == id
  {
  }

  /** Two different ids never share a backend key. */
  lemma KeyInjective(a: string, b: string)
    ensures Key(a) == Key(b) <==> a == b
  {
  }

  /** What `getPaste(id)` reads from backend contents `m`. */
  function Lookup(m: map<string, PasteData>, id: string): (r: Option<PasteData>)
    ensures r.Some? <==> Key(id) in m
    ensures r.Some? ==> r.value == m[Key(id)]
  {
    if Key(id) in m then Some(m[Key(id)]) else None
  }

  /** Backend contents after `setPaste(id, d)`. */
  function Stored(m: map<string, PasteData>, id: string, d: PasteData): (m': map<string, PasteData>)
    ensures m'.Keys == m.Keys + {Key(id)}
    ensures m'[Key(id)] == d
    ensures forall k :: k in m && k != Key(id) ==> m'[k] == m[k]
  {
    m[Key(id) := d]
  }

  /** Reading a paste back right after writing it gives what was written, and every other paste reads as before. */
  lemma SetThenGet(m: map<string, PasteData>, id: string, d: PasteData, other: string)
    ensures Lookup(Stored(m, id, d), id) == Some(d)
    ensures other != id ==> Lookup(Stored(m, id, d), other) == Lookup(m, other)
  {
  }

  /** A second write of the same id replaces the first completely. */
  lemma SetOverwrites(m: map<string, PasteData>, id: string, d1: PasteData, d2: PasteData)
    ensures Stored(Stored(m, id, d1), id, d2) == Stored(m, id, d2)
  {
  }

  /** A record with one more view; every other field unchanged. */
  function Incremented(p: PasteData): (q: PasteData)
    ensures q.views == p.views + 1
    ensures q.content == p.content && q.createdAt == p.createdAt
    ensures q.expiresAt == p.expiresAt && q.maxViews == p.maxViews
  {
    p.(views := p.views + 1)
  }

  /** The reply of `incrementViews` together with the backend contents it leaves. */
  datatype Step = Step(reply: Option<PasteData>, contents: map<string, PasteData>)

  /**
   * The sequential effect of one `incrementViews(id)`: an absent paste gives
   * `null` and nothing changes; a present one is replaced by its incremented
   * copy, which is also the reply.
   */
  function IncrementStep(m: map<string, PasteData>, id: string): (s: Step)
    ensures Key(id) !in m ==> s.reply == None && s.contents == m
    ensures Key(id) in m ==> s.reply == Some(Incremented(m[Key(id)]))
    ensures s.contents.Keys == m.Keys
    ensures forall k :: k in m && k != Key(id) ==> s.contents[k] == m[k]
    ensures s.reply.Some? ==> s.contents[Key(id)] == s.reply.value
  {
    if Key(id) in m then
      var q := Incremented(m[Key(id)]);
      Step(Some(q), m[Key(id) := q])
    else
      Step(None, m)
  }

  /** Backend contents after `n` sequential `incrementViews(id)` calls. */
  function IncrementTimes(m: map<string, PasteData>, id: string, n: nat): (m': map<string, PasteData>)
    ensures m'.Keys == m.Keys
  {
    if n == 0 then m else IncrementStep(IncrementTimes(m, id, n - 1), id).contents
  }

  /**
   * `n` sequential increments of a present paste raise its views by exactly
   * `n`, change none of its other fields and touch no other paste.
   */
  lemma {:induction false} IncrementTimesAddsN(m: map<string, PasteData>, id: string, n: nat)
    requires Key(id) in m
    ensures IncrementTimes(m, id, n)[Key(id)].views == m[Key(id)].views + n
    ensures IncrementTimes(m, id, n)[Key(id)] == m[Key(id)].(views := m[Key(id)].views + n)
    ensures forall k :: k in m && k != Key(id) ==> IncrementTimes(m, id, n)[k] == m[k]
  {
    if n > 0 {
      IncrementTimesAddsN(m, id, n - 1);
    }
  }

  /** Increments on an absent paste do nothing at all. */
  lemma {:induction false} IncrementTimesAbsent(m: map<string, PasteData>, id: string, n: nat)
    requires Key(id) !in m
    ensures IncrementTimes(m, id, n) == m
  {
    if n > 0 {
      IncrementTimesAbsent(m, id, n - 1);
    }
  }

  /** The view count of a paste never goes down, however many increments run. */
  lemma ViewsNeverDecrease(m: map<string, PasteData>, id: string, i: nat, j: nat)
    requires Key(id) in m && i <= j
    ensures IncrementTimes(m, id, i)[Key(id)].views <= IncrementTimes(m, id, j)[Key(id)].views
  {
  }

  // ---------------------------------------------------------------------
  // The server-side script of incrementViews (lib/redis.ts:56-67) and the
  // handling of its reply (lib/redis.ts:70-76).

  /**
   * A script reply as the TypeScript code sees it: nil, the script's encoded
   * record as a string (shown decoded), that record already turned into an
   * object by the client's reply deserialisation, or some other value.
   */
  datatype EvalReply = NilReply | EncodedRecord(record: PasteData) | DecodedRecord(record: PasteData) | OtherReply

  /** The reply of the script together with the backend contents it leaves. */
  datatype ScriptRun = ScriptRun(reply: EvalReply, contents: map<string, PasteData>)

  /** The Lua script run on KEYS[1] = `key`: GET, return nil if absent, else add one to views, SET and return the record. */
  function RunIncrementScript(m: map<string, PasteData>, key: string): (run: ScriptRun)
    ensures key !in m <==> run.reply == NilReply
    ensures key !in m ==> run.contents == m
    ensures key in m ==> run.reply == EncodedRecord(Incremented(m[key])) && run.contents == m[key := Incremented(m[key])]
  {
    if key !in m then ScriptRun(NilReply, m)
    else
      var paste := m[key].(views := m[key].views + 1);
      ScriptRun(EncodedRecord(paste), m[key := paste])
  }

  /**
   * What `redis.eval` resolves to: the script's string unchanged, or, when the
   * client deserialises replies, the object that string encodes.
   */
  function ClientReply(reply: EvalReply, deserialises: bool): (r: EvalReply)
    ensures reply == NilReply <==> r == NilReply
    ensures deserialises && reply.EncodedRecord? ==> r == DecodedRecord(reply.record)
    ensures !deserialises ==> r == reply
  {
    if deserialises && reply.EncodedRecord? then DecodedRecord(reply.record) else reply
  }

  /** lib/redis.ts:72-76 as written: only a string reply yields a paste; nil, an object or anything else is reported as `null`. */
  function ReplyToPaste(reply: EvalReply): (r: Option<PasteData>)
    ensures r.Some? <==> reply.EncodedRecord?
    ensures r.Some? ==> r.value == reply.record
  {
    match reply
    case EncodedRecord(p) => Some(p)
    case _ => None
  }

  /** Reply handling that accepts the record whether it arrives as a string or already decoded. */
  function ReplyToPasteFixed(reply: EvalReply): (r: Option<PasteData>)
    ensures r.Some? <==> reply.EncodedRecord? || reply.DecodedRecord?
    ensures r.Some? ==> r.value == reply.record
  {
    match reply
    case EncodedRecord(p) => Some(p)
    case DecodedRecord(p) => Some(p)
    case _ => None
  }

  /** With a client that hands the script's string back unchanged, the script path has exactly the effect of one increment step. */
  lemma ScriptPathIsIncrementStep(m: map<string, PasteData>, id: string)
    ensures Step(ReplyToPaste(ClientReply(RunIncrementScript(m, Key(id)).reply, false)), RunIncrementScript(m, Key(id)).contents)
      == IncrementStep(m, id)
  {
  }

  /**
   * As written, a client that deserialises the reply makes a present paste
   * read as `null`, although the script has already stored it with one more
   * view.
   */
  lemma ParsedReplyDropsRecord(m: map<string, PasteData>, id: string)
    requires Key(id) in m
    ensures ReplyToPaste(ClientReply(RunIncrementScript(m, Key(id)).reply, true)) == None
    ensures RunIncrementScript(m, Key(id)).contents[Key(id)].views == m[Key(id)].views + 1
  {
  }

  /** With the fixed reply handling, the script path is one increment step whichever way the client returns the reply. */
  lemma FixedScriptPathIsIncrementStep(m: map<string, PasteData>, id: string, deserialises: bool)
    ensures Step(ReplyToPasteFixed(ClientReply(RunIncrementScript(m, Key(id)).reply, deserialises)), RunIncrementScript(m, Key(id)).contents)
      == IncrementStep(m, id)
  {
  }

  /** Under keys of the form `paste:<id>`, every stored record is the one `getPaste` finds for the id its key names. */
  predicate AllPasteKeys(m: map<string, PasteData>)
  {
    forall k :: k in m ==> IsPasteKey(k)
  }

  lemma EveryEntryReachable(m: map<string, PasteData>, k: string)
    requires AllPasteKeys(m) && k in m
    ensures Key(IdOfKey(k)) == k && Lookup(m, IdOfKey(k)) == Some(m[k])
  {
    assert KeyPrefix + k[|KeyPrefix|..] == k;
  }

  // ---------------------------------------------------------------------

  /** The store client: the backend's contents, read and written through the key scheme. */
  class PasteStore {
    var contents: map<string, PasteData>

    /** Every key the client ever writes has the form `paste:<id>`, so every entry is reachable through `getPaste`. */
    ghost predicate Valid()
      reads this
    {
      AllPasteKeys(contents)
    }

    constructor ()
      ensures Valid() && contents == map[]
    {
      contents := map[];
    }

    /** Because of `Valid()`, every entry of the store is the record `getPaste` returns for the id its key names. */
    lemma EntryReachable(k: string)
      requires Valid() && k in contents
      ensures Key(IdOfKey(k)) == k && Lookup(contents, IdOfKey(k)) == Some(contents[k])
    {
      EveryEntryReachable(contents, k);
    }

    /** `getPaste`: the record under `paste:<id>`, or `null` when there is none. */
    method GetPaste(id: string) returns (r: Option<PasteData>)
      ensures r.Some? <==> Key(id) in contents
      ensures r.Some? ==> r.value == contents[Key(id)]
      ensures r == Lookup(contents, id)
    {
      var key := Key(id);
      if key in contents {
        r := Some(contents[key]);
      } else {
        r := None;
      }
    }

    /** `setPaste`: write `d` under `paste:<id>`, replacing whatever was there. */
    method SetPaste(id: string, d: PasteData)
      requires Valid()
      modifies this
      ensures Valid()
      ensures contents == old(contents)[Key(id) := d]
      ensures Lookup(contents, id) == Some(d)
    {
      contents := contents[Key(id) := d];
    }

    /**
     * `incrementViews`. With `scriptAvailable` the Lua script does the
     * read-increment-write in one step, and `clientDeserialises` says whether
     * `redis.eval` hands back the script's string or the object it encodes;
     * otherwise `redis.eval` failed and the fallback reads, increments and
     * writes back. The store always changes by one `IncrementStep`; the reply
     * is that step's, except that a deserialised script reply is reported as
     * `null`.
     */
    method IncrementViews(id: string, scriptAvailable: bool, clientDeserialises: bool) returns (r: Option<PasteData>)
      requires Valid()
      modifies this
      ensures Valid()
      ensures Key(id) !in old(contents) ==> r == None && contents == old(contents)
      ensures Key(id) in old(contents) ==>
        contents == old(contents)[Key(id) := Incremented(old(contents)[Key(id)])]
      ensures Key(id) in old(contents) && !(scriptAvailable && clientDeserialises) ==>
        r == Some(Incremented(old(contents)[Key(id)]))
      ensures Key(id) in old(contents) && scriptAvailable && clientDeserialises ==> r == None
      ensures contents == IncrementStep(old(contents), id).contents
    {
      var key := Key(id);
      if scriptAvailable {
        var run := RunIncrementScript(contents, key);
        contents := run.contents;
        r := ReplyToPaste(ClientReply(run.reply, clientDeserialises));
      } else {
        var paste := GetPaste(id);
        if paste.None? {
          return None;
        }
        var updated := paste.value.(views := paste.value.views + 1);
        SetPaste(id, updated);
        r := Some(updated);
      }
    }
  }
}
