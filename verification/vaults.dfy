/** The credential vault as a map from slots to secrets, the slot addressing rule of its two
    implementations, and one sequential token refresh against it. */
module Vaults {
  import opened Prelude

  /** The coordinates a secret is stored under. */
  datatype Slot = Slot(service: string, account: string)

  /** expires is None when the stored expiry is missing or unparsable. */
  datatype Bundle = Bundle(access: string, refresh: string, idToken: string, expires: Option<int>)

  /** What a slot holds: an encoded token bundle, or bytes that do not decode as one. */
  datatype Secret = Encoded(bundle: Bundle) | Undecodable

  type Db = map<Slot, Secret>

  /** Keychain prefixes the requested service with its own name; InMemory keeps it. */
  datatype Addressing = Keychain(name: string) | InMemory

  function StoredService(a: Addressing, service: string): string {
    match a
    case Keychain(name) => name + "-" + service
    case InMemory => service
  }

  function StoredSlot(a: Addressing, service: string, account: string): Slot {
    Slot(StoredService(a, service), account)
  }

  datatype Error =
    | LoadFailed
    | ParseFailed
    | RefreshRejected
    | RefreshFailed
    | StoreFailed

  /** The token endpoint's answer: a new bundle, or a refusal or failure. */
  datatype Answer = Granted(bundle: Bundle) | Denied(error: Error)

  /** The arguments of one refresh, and everything outside its control while it runs. */
  datatype Request = Request(service: string, account: string, ref: Slot)
  datatype Inputs = Inputs(readable: bool, now: int, answer: Answer, storeOk: bool, deleteOk: bool)
  datatype Outcome = Outcome(ref: Slot, bundle: Option<Bundle>, error: Option<Error>)

  const REFRESH_LEAD := 300

  predicate NeedsRefresh(expires: Option<int>, now: int) {
    expires.None? || now + REFRESH_LEAD > expires.value
  }

  /** A bundle without a refresh token is rejected before any request is made. */
  predicate Grants(was: Bundle, answer: Answer) {
    was.refresh != "" && answer.Granted?
  }

  function Refusal(was: Bundle, answer: Answer): Error
    requires !Grants(was, answer)
  {
    if was.refresh == "" then RefreshRejected else answer.error
  }

  /** One whole refresh: the vault it leaves and what it returns. */
  function RefreshOnce(a: Addressing, db: Db, q: Request, i: Inputs): (Db, Outcome) {
    if !i.readable || q.ref !in db then (db, Outcome(q.ref, None, Some(LoadFailed)))
    else if db[q.ref].Undecodable? then (db, Outcome(q.ref, None, Some(ParseFailed)))
    else
      var was := db[q.ref].bundle;
      if !NeedsRefresh(was.expires, i.now) then (db, Outcome(q.ref, Some(was), None))
      else if !Grants(was, i.answer) then (db, Outcome(q.ref, Some(was), Some(Refusal(was, i.answer))))
      else if !i.storeOk then (db, Outcome(q.ref, Some(was), Some(StoreFailed)))
      else
        var slot := StoredSlot(a, q.service, q.account);
        var stored := db[slot := Encoded(i.answer.bundle)];
        (if i.deleteOk then stored - {q.ref} else stored, Outcome(slot, Some(i.answer.bundle), None))
  }

  /** The old bundle went to the token endpoint and a new one came back. */
  ghost predicate Exchanged(db: Db, q: Request, i: Inputs) {
    && i.readable && q.ref in db && db[q.ref].Encoded?
    && NeedsRefresh(db[q.ref].bundle.expires, i.now)
    && Grants(db[q.ref].bundle, i.answer)
  }

  /** The vault itself. An operation that the environment makes fail changes nothing. */
  class Vault {
    const addressing: Addressing
    var db: Db

    constructor (a: Addressing)
      ensures addressing == a && db == map[]
    {
      addressing := a;
      db := map[];
    }

    method Store(service: string, account: string, secret: Secret, works: bool) returns (r: Option<Slot>)
      modifies this
      ensures r == if works then Some(StoredSlot(addressing, service, account)) else None
      ensures db == if works then old(db)[StoredSlot(addressing, service, account) := secret] else old(db)
    {
      if !works {
        return None;
      }
      var slot := StoredSlot(addressing, service, account);
      db := db[slot := secret];
      return Some(slot);
    }

    method Get(ref: Slot, works: bool) returns (r: Option<Secret>)
      ensures r == if works && ref in db then Some(db[ref]) else None
    {
      if works && ref in db {
        return Some(db[ref]);
      }
      return None;
    }

    method Delete(ref: Slot, works: bool) returns (ok: bool)
      modifies this
      ensures ok == (works && ref in old(db))
      ensures db == if works then old(db) - {ref} else old(db)
    {
      if !works || ref !in db {
        assert db - {ref} == db || !works;
        return false;
      }
      db := db - {ref};
      return true;
    }

    /** refreshOnce: load, decide, exchange, store the new bundle, then delete the old slot. */
    method Refresh(q: Request, i: Inputs) returns (out: Outcome)
      modifies this
      ensures (db, out) == RefreshOnce(addressing, old(db), q, i)
    {
      var loaded := Get(q.ref, i.readable);
      if loaded.None? {
        return Outcome(q.ref, None, Some(LoadFailed));
      }
      if loaded.value.Undecodable? {
        return Outcome(q.ref, None, Some(ParseFailed));
      }
      var current := loaded.value.bundle;
      if !NeedsRefresh(current.expires, i.now) {
        return Outcome(q.ref, Some(current), None);
      }
      if !Grants(current, i.answer) {
        return Outcome(q.ref, Some(current), Some(Refusal(current, i.answer)));
      }
      var slot := Store(q.service, q.account, Encoded(i.answer.bundle), i.storeOk);
      if slot.None? {
        return Outcome(q.ref, Some(current), Some(StoreFailed));
      }
      var _ := Delete(q.ref, i.deleteOk);
      return Outcome(slot.value, Some(i.answer.bundle), None);
    }
  }

  // ---- which bundles are traded in ----

  /** The reference leads to this bundle. */
  predicate Leads(db: Db, q: Request, i: Inputs, b: Bundle) {
    i.readable && q.ref in db && db[q.ref] == Encoded(b)
  }

  /** Whatever is returned without an error is the bundle just granted, or the stored one with at least five
      minutes left. */
  lemma ReturnedIsFresh(a: Addressing, db: Db, q: Request, i: Inputs)
    ensures var out := RefreshOnce(a, db, q, i).1;
            out.error.None? ==>
              && out.bundle.Some?
              && (i.answer == Granted(out.bundle.value)
                  || (Leads(db, q, i, out.bundle.value)
                      && out.bundle.value.expires.Some? && i.now + 300 <= out.bundle.value.expires.value))
  {
  }

  /** A bundle with at least five minutes left comes back as it is, whatever the endpoint would answer. */
  lemma FreshIsKept(a: Addressing, db: Db, q: Request, i: Inputs, b: Bundle)
    requires Leads(db, q, i, b) && b.expires.Some? && i.now + 300 <= b.expires.value
    ensures RefreshOnce(a, db, q, i) == (db, Outcome(q.ref, Some(b), None))
  {
  }

  /** A bundle with less left, or without an expiry, is replaced when the endpoint grants a new one for its
      refresh token and that can be stored; the error otherwise tells which of these failed. */
  lemma StaleIsReplaced(a: Addressing, db: Db, q: Request, i: Inputs, b: Bundle)
    requires Leads(db, q, i, b) && (b.expires.Some? ==> b.expires.value < i.now + 300)
    ensures var (db', out) := RefreshOnce(a, db, q, i);
            var slot := StoredSlot(a, q.service, q.account);
            && (out.error.None? <==> b.refresh != "" && i.answer.Granted? && i.storeOk)
            && (out.error.None? ==>
                  && out == Outcome(slot, Some(i.answer.bundle), None)
                  && (slot != q.ref ==> slot in db' && db'[slot] == Encoded(i.answer.bundle)))
            && (out.error.Some? ==>
                  && out.ref == q.ref && out.bundle == Some(b) && db' == db
                  && out.error.value == if b.refresh == "" then RefreshRejected
                                        else if i.answer.Denied? then i.answer.error else StoreFailed)
  {
  }

  /** What cannot be loaded, or does not decode, is reported as such and left alone. */
  lemma UnreadableIsReported(a: Addressing, db: Db, q: Request, i: Inputs)
    requires forall b :: !Leads(db, q, i, b)
    ensures RefreshOnce(a, db, q, i)
            == (db, Outcome(q.ref, None, Some(if i.readable && q.ref in db then ParseFailed else LoadFailed)))
  {
    if i.readable && q.ref in db && db[q.ref].Encoded? {
      assert Leads(db, q, i, db[q.ref].bundle);
    }
  }

  /** A refresh that reports an error, or that found the token still fresh, leaves every slot as it
      was; any other refresh changes at most the old and the new slot. */
  lemma FailureKeepsVault(a: Addressing, db: Db, q: Request, i: Inputs)
    ensures var (db', out) := RefreshOnce(a, db, q, i);
            && (out.error.Some? || !Exchanged(db, q, i) ==> db' == db)
            && (out.error.None? ==> out.bundle.Some?)
            && (out.error.None? && Exchanged(db, q, i) ==> out.bundle == Some(i.answer.bundle))
            && forall s :: s != q.ref && s != StoredSlot(a, q.service, q.account) ==>
                 (s in db <==> s in db') && (s in db ==> db'[s] == db[s])
  {
  }

  /** After a rotation the returned reference leads to the returned bundle exactly when the new slot is
      not the old one or the old slot survived its deletion. */
  lemma RotatedTokenReadable(a: Addressing, db: Db, q: Request, i: Inputs)
    requires Exchanged(db, q, i) && i.storeOk
    ensures var (db', out) := RefreshOnce(a, db, q, i);
            && out.error.None? && out.ref == StoredSlot(a, q.service, q.account)
            && ((out.ref in db' && db'[out.ref] == Encoded(i.answer.bundle)) <==>
                (StoredSlot(a, q.service, q.account) != q.ref || !i.deleteOk))
            && (i.deleteOk ==> q.ref !in db')
  {
  }

  /** Callers reuse the old coordinates. The keychain then always moves to a new slot, the in-memory
      vault never does, and so loses the token it has just stored. */
  lemma ReusedCoordinates(a: Addressing, db: Db, ref: Slot, i: Inputs)
    requires var q := Request(ref.service, ref.account, ref); Exchanged(db, q, i) && i.storeOk && i.deleteOk
    ensures var (db', out) := RefreshOnce(a, db, Request(ref.service, ref.account, ref), i);
            (out.ref in db' && db'[out.ref] == Encoded(i.answer.bundle)) <==> a.Keychain?
  {
    assert |StoredService(a, ref.service)| > |ref.service| <==> a.Keychain?;
  }

  /** The same reference presented again, later: the old bundle is exchanged a second time exactly when
      the first refresh failed to store the new one or (with prefixed slots) to delete the old one. */
  lemma SecondExchange(a: Addressing, db: Db, ref: Slot, i: Inputs, j: Inputs)
    requires var q := Request(ref.service, ref.account, ref); Exchanged(db, q, i)
    requires j.readable && j.answer.Granted? && i.answer.bundle != db[ref].bundle
    requires NeedsRefresh(db[ref].bundle.expires, j.now)
    ensures var q := Request(ref.service, ref.account, ref);
            var (db', _) := RefreshOnce(a, db, q, i);
            (Exchanged(db', q, j) && db'[ref] == db[ref]) <==>
            (!i.storeOk || (a.Keychain? && !i.deleteOk))
  {
    assert |StoredService(a, ref.service)| > |ref.service| <==> a.Keychain?;
  }

  /** The service coordinate after n rotations. */
  function Rotated(a: Addressing, service: string, n: nat): string {
    if n == 0 then service else StoredService(a, Rotated(a, service, n - 1))
  }

  lemma {:induction false} RotatedLength(name: string, service: string, n: nat)
    ensures |Rotated(Keychain(name), service, n)| == |service| + n * (|name| + 1)
  {
    if n > 0 {
      RotatedLength(name, service, n - 1);
      assert n * (|name| + 1) == (n - 1) * (|name| + 1) + |name| + 1;
    }
  }

  /** Slots along a keychain rotation chain are pairwise distinct. */
  lemma ChainSlotsDistinct(name: string, ref: Slot, m: nat, n: nat)
    requires m < n
    ensures Slot(Rotated(Keychain(name), ref.service, m), ref.account) !=
            Slot(Rotated(Keychain(name), ref.service, n), ref.account)
  {
    RotatedLength(name, ref.service, m);
    RotatedLength(name, ref.service, n);
    assert n * (|name| + 1) == m * (|name| + 1) + (n - m) * (|name| + 1);
    assert (n - m) * (|name| + 1) >= 1;
  }
}
