// The trust store of plugin signing keys, changed by the rotate and revoke commands.
module TrustStore {
  import opened Common
  import opened Text
  import opened StableSort

  // A stored timestamp: empty, RFC 3339 text for a whole second, or text that does not parse.
  datatype Stamp = Unset | At(seconds: int) | Malformed

  // publicKey stands for the base64 text of those bytes.
  datatype TrustKey = TrustKey(
    keyId: string, algorithm: string, publicKey: bytes, hash: string, createdAt: int, rotatedAt: Option<int>,
    notBefore: Stamp, notAfter: Stamp, revoked: bool, revokedAt: Option<int>, reason: string)

  // A timestamp flag: blank, an instant in nanoseconds, or text that does not parse.
  datatype StampFlag = Blank | Instant(nanoseconds: int) | Garbled

  // Commands with their flags; decodedKey is None when the key reference does not decode. now is in
  // nanoseconds.
  datatype Command =
    | Rotate(keyId: string, decodedKey: Option<bytes>, notBefore: StampFlag, notAfter: StampFlag, now: int)
    | Revoke(keyId: string, reason: string, now: int)

  datatype Failure = MissingFlags | BadKey | BadKeyLength | BadNotBefore | BadNotAfter | KeyRevoked | NotFound

  const KEY_SIZE: nat := 32

  // Formatting with time.RFC3339 drops the fraction of the second.
  function Normalized(flag: StampFlag): Stamp {
    match flag
    case Blank => Unset
    case Instant(ns) => At(ns / SECOND)
    case Garbled => Malformed
  }

  datatype Status = Trusted | Revoked | NotYetValid | Expired | Invalid

  function TrustStatus(key: TrustKey, now: int): Status {
    if key.revoked then Revoked
    else if key.algorithm != "" && key.algorithm != "ed25519" then Invalid
    else if key.notBefore.Malformed? then Invalid
    else if key.notBefore.At? && now < key.notBefore.seconds * SECOND then NotYetValid
    else if key.notAfter.Malformed? then Invalid
    else if key.notAfter.At? && now > key.notAfter.seconds * SECOND then Expired
    else Trusted
  }

  // ---------------------------------------------------------------- the list of keys

  // The first key with the id.
  function Lookup(keys: seq<TrustKey>, id: string): (k: Option<TrustKey>)
    ensures k.Some? ==> k.value.keyId == id && k.value in keys
    ensures k.None? <==> forall key :: key in keys ==> key.keyId != id
  {
    if keys == [] then None
    else if keys[0].keyId == id then Some(keys[0])
    else Lookup(keys[1..], id)
  }

  function Active(keys: seq<TrustKey>, now: int): (active: seq<TrustKey>)
    ensures forall k :: k in active <==> k in keys && TrustStatus(k, now) == Trusted
  {
    if keys == [] then []
    else
      assert keys == [keys[0]] + keys[1..];
      (if TrustStatus(keys[0], now) == Trusted then [keys[0]] else []) + Active(keys[1..], now)
  }

  function Entries(keys: seq<TrustKey>): (es: seq<Entry<TrustKey>>)
    ensures |es| == |keys|
    ensures forall i :: 0 <= i < |keys| ==> es[i] == EntryOf(keys[i])
  {
    seq(|keys|, i requires 0 <= i < |keys| => EntryOf(keys[i]))
  }

  function EntryOf(key: TrustKey): Entry<TrustKey> {
    Entry("", IdKey(key.keyId), key)
  }

  function IdKey(id: string): Key {
    Key("", 0, id, "")
  }

  function Payloads(es: seq<Entry<TrustKey>>): seq<TrustKey> {
    seq(|es|, i requires 0 <= i < |es| => es[i].payload)
  }

  // What savePluginSignTrustStore leaves: the keys stably sorted by id.
  function Saved(keys: seq<TrustKey>): seq<TrustKey> {
    Payloads(Sort(Entries(keys)))
  }

  predicate SortedById(keys: seq<TrustKey>) {
    forall i, j :: 0 <= i < j < |keys| ==> !StringLess(keys[j].keyId, keys[i].keyId)
  }

  predicate DistinctIds(keys: seq<TrustKey>) {
    forall i, j :: 0 <= i < j < |keys| ==> keys[i].keyId != keys[j].keyId
  }

  function First(keys: seq<TrustKey>): Option<TrustKey> {
    if keys == [] then None else Some(keys[0])
  }

  // The keys with one id, in order.
  function WithId(keys: seq<TrustKey>, id: string): seq<TrustKey> {
    if keys == [] then []
    else (if keys[0].keyId == id then [keys[0]] else []) + WithId(keys[1..], id)
  }

  lemma {:induction false} WithIdIsClass(keys: seq<TrustKey>, id: string)
    ensures Class(Entries(keys), IdKey(id)) == Entries(WithId(keys, id))
  {
    if keys != [] {
      assert Entries(keys)[1..] == Entries(keys[1..]);
      WithIdIsClass(keys[1..], id);
      assert Entries(keys)[0] == EntryOf(keys[0]);
    }
  }

  lemma {:induction false} WithIdFirst(keys: seq<TrustKey>, id: string)
    ensures First(WithId(keys, id)) == Lookup(keys, id)
  {
    if keys != [] {
      WithIdFirst(keys[1..], id);
    }
  }

  ghost predicate OnePerId(keys: seq<TrustKey>) {
    forall id :: |WithId(keys, id)| <= 1
  }

  lemma DistinctTail(keys: seq<TrustKey>)
    requires keys != []
    ensures DistinctIds(keys) <==> DistinctIds(keys[1..]) && Lookup(keys[1..], keys[0].keyId).None?
  {
    var rest := keys[1..];
    assert forall j :: 0 < j < |keys| ==> keys[j] == rest[j - 1];
    if DistinctIds(keys) {
      assert forall i, j :: 0 <= i < j < |rest| ==> rest[i] == keys[i + 1] && rest[j] == keys[j + 1];
    }
    if DistinctIds(rest) && Lookup(rest, keys[0].keyId).None? {
      assert forall j :: 0 < j < |keys| ==> rest[j - 1] in rest && keys[j].keyId != keys[0].keyId;
    }
  }

  lemma {:induction false} DistinctAtMostOne(keys: seq<TrustKey>, id: string)
    requires DistinctIds(keys)
    ensures |WithId(keys, id)| <= 1
  {
    if keys != [] {
      DistinctTail(keys);
      DistinctAtMostOne(keys[1..], id);
      WithIdFirst(keys[1..], id);
    }
  }

  lemma {:induction false} AtMostOneDistinct(keys: seq<TrustKey>)
    requires OnePerId(keys)
    ensures DistinctIds(keys)
  {
    if keys != [] {
      var rest := keys[1..];
      DistinctTail(keys);
      forall id
        ensures |WithId(rest, id)| <= 1
      {
        assert |WithId(keys, id)| <= 1;
      }
      AtMostOneDistinct(rest);
      assert |WithId(keys, keys[0].keyId)| <= 1;
      WithIdFirst(rest, keys[0].keyId);
    }
  }

  lemma DistinctIsSingle(keys: seq<TrustKey>)
    ensures DistinctIds(keys) <==> OnePerId(keys)
  {
    if DistinctIds(keys) {
      forall id
        ensures |WithId(keys, id)| <= 1
      {
        DistinctAtMostOne(keys, id);
      }
    } else if OnePerId(keys) {
      AtMostOneDistinct(keys);
    }
  }

  lemma {:induction false} SortOfEntries(keys: seq<TrustKey>, es: seq<Entry<TrustKey>>)
    requires forall e :: e in es ==> e == EntryOf(e.payload)
    ensures Entries(Payloads(es)) == es
  {
    forall i | 0 <= i < |es|
      ensures Entries(Payloads(es))[i] == es[i]
    {
      assert es[i] in es;
    }
  }

  // Saving sorts the keys and keeps those of each id, in their order.
  lemma SavedKeeps(keys: seq<TrustKey>)
    ensures SortedById(Saved(keys))
    ensures forall id :: WithId(Saved(keys), id) == WithId(keys, id)
    ensures forall id :: Lookup(Saved(keys), id) == Lookup(keys, id)
    ensures DistinctIds(Saved(keys)) <==> DistinctIds(keys)
  {
    var es := Sort(Entries(keys));
    SortIsStable(Entries(keys));
    forall e | e in es
      ensures e == EntryOf(e.payload)
    {
      ClassMembers(es, e.key);
      ClassMembers(Entries(keys), e.key);
      assert e in Class(es, e.key);
      assert e in Entries(keys);
    }
    SortOfEntries(keys, es);
    var saved := Saved(keys);
    forall i, j | 0 <= i < j < |saved|
      ensures !StringLess(saved[j].keyId, saved[i].keyId)
    {
      assert !KeyLess(es[j].key, es[i].key);
      assert es[i] in es && es[j] in es;
      StringLessIrreflexive(saved[i].keyId);
    }
    forall id
      ensures WithId(saved, id) == WithId(keys, id) && Lookup(saved, id) == Lookup(keys, id)
    {
      WithIdIsClass(saved, id);
      WithIdIsClass(keys, id);
      assert Class(es, IdKey(id)) == Class(Entries(keys), IdKey(id));
      EntriesInjective(WithId(saved, id), WithId(keys, id));
      WithIdFirst(saved, id);
      WithIdFirst(keys, id);
    }
    DistinctIsSingle(keys);
    DistinctIsSingle(saved);
  }

  lemma EntriesInjective(a: seq<TrustKey>, b: seq<TrustKey>)
    requires Entries(a) == Entries(b)
    ensures a == b
  {
    forall i | 0 <= i < |a|
      ensures a[i] == b[i]
    {
      assert Entries(a)[i] == EntryOf(a[i]) && Entries(b)[i] == EntryOf(b[i]);
    }
  }

  // ---------------------------------------------------------------- the commands, on one key

  // SHA-256 in hexadecimal is an unknown function of the bytes.
  type Digest = bytes -> string

  function FlagError(cmd: Command): Option<Failure> {
    if cmd.keyId == "" then Some(MissingFlags)
    else if cmd.Revoke? then None
    else if cmd.decodedKey.None? then Some(BadKey)
    else if |cmd.decodedKey.value| != KEY_SIZE then Some(BadKeyLength)
    else if cmd.notBefore.Garbled? then Some(BadNotBefore)
    else if cmd.notAfter.Garbled? then Some(BadNotAfter)
    else None
  }

  // Why a command fails, given the key that has its id.
  function CommandError(key: Option<TrustKey>, cmd: Command): Option<Failure> {
    if FlagError(cmd).Some? then FlagError(cmd)
    else
      match cmd
      case Rotate(_, _, _, _, _) => if key.Some? && key.value.revoked then Some(KeyRevoked) else None
      case Revoke(_, _, _) => if key.None? then Some(NotFound) else None
  }

  // What a command does to the key of that id.
  function NextKey(key: Option<TrustKey>, cmd: Command, digest: Digest): Option<TrustKey> {
    if CommandError(key, cmd).Some? then key
    else
      match cmd
      case Rotate(id, decoded, notBefore, notAfter, now) =>
        var bytes := decoded.value;
        Some(
          if key.Some? then
            key.value.(algorithm := "ed25519", publicKey := bytes, hash := digest(bytes),
                       rotatedAt := Some(now / SECOND), notBefore := Normalized(notBefore),
                       notAfter := Normalized(notAfter))
          else
            TrustKey(id, "ed25519", bytes, digest(bytes), now / SECOND, None, Normalized(notBefore),
                     Normalized(notAfter), false, None, ""))
      case Revoke(_, reason, now) =>
        var k := key.value;
        var revoked := if k.revoked then k else k.(revoked := true, revokedAt := Some(now / SECOND));
        Some(revoked.(reason := TrimSpace(reason)))
  }

  // ---------------------------------------------------------------- the commands, on the stored list

  function Find(keys: seq<TrustKey>, id: string): (i: int)
    ensures -1 <= i < |keys|
    ensures i == -1 <==> Lookup(keys, id).None?
    ensures i >= 0 ==> Lookup(keys, id) == Some(keys[i])
  {
    if keys == [] then -1
    else if keys[0].keyId == id then 0
    else if Find(keys[1..], id) == -1 then -1
    else 1 + Find(keys[1..], id)
  }

  // The list with the key of an id replaced where it is first found, or appended.
  function Put(keys: seq<TrustKey>, key: TrustKey): seq<TrustKey> {
    var i := Find(keys, key.keyId);
    if i >= 0 then keys[i := key] else keys + [key]
  }

  function Execute(keys: seq<TrustKey>, cmd: Command, digest: Digest): seq<TrustKey> {
    var key := Lookup(keys, cmd.keyId);
    if CommandError(key, cmd).Some? then keys else Saved(Put(keys, NextKey(key, cmd, digest).value))
  }

  lemma {:induction false} PutLookup(keys: seq<TrustKey>, key: TrustKey, id: string)
    ensures Lookup(Put(keys, key), id) == if id == key.keyId then Some(key) else Lookup(keys, id)
    ensures |WithId(Put(keys, key), id)| ==
            if id == key.keyId && Find(keys, id) == -1 then 1 else |WithId(keys, id)|
  {
    if keys == [] {
      assert [] + [key] == [key];
    } else if keys[0].keyId == key.keyId {
      assert Put(keys, key)[1..] == keys[1..];
    } else {
      PutLookup(keys[1..], key, id);
      assert Put(keys, key)[1..] == Put(keys[1..], key);
      assert Put(keys, key)[0] == keys[0];
    }
  }

  lemma ExecuteIsPerKey(keys: seq<TrustKey>, cmd: Command, digest: Digest, id: string)
    ensures Lookup(Execute(keys, cmd, digest), id)
            == if id == cmd.keyId then NextKey(Lookup(keys, id), cmd, digest) else Lookup(keys, id)
  {
    var key := Lookup(keys, cmd.keyId);
    if CommandError(key, cmd).None? {
      var put := Put(keys, NextKey(key, cmd, digest).value);
      SavedKeeps(put);
      PutLookup(keys, NextKey(key, cmd, digest).value, id);
      assert Lookup(Saved(put), id) == Lookup(put, id);
    }
  }

  lemma ExecuteKeepsOrder(keys: seq<TrustKey>, cmd: Command, digest: Digest)
    ensures SortedById(keys) ==> SortedById(Execute(keys, cmd, digest))
    ensures DistinctIds(keys) ==> DistinctIds(Execute(keys, cmd, digest))
  {
    var key := Lookup(keys, cmd.keyId);
    if CommandError(key, cmd).None? {
      var next := NextKey(key, cmd, digest).value;
      SavedKeeps(Put(keys, next));
      if DistinctIds(keys) {
        DistinctIsSingle(keys);
        forall id
          ensures |WithId(Put(keys, next), id)| <= 1
        {
          PutLookup(keys, next, id);
        }
        DistinctIsSingle(Put(keys, next));
      }
    }
  }

  class TrustStoreFile {
    var keys: seq<TrustKey>

    constructor ()
      ensures keys == []
    {
      keys := [];
    }

    method FindKey(id: string) returns (index: int)
      ensures index == Find(keys, id)
    {
      var i := 0;
      assert keys[0..] == keys;
      while i < |keys|
        invariant 0 <= i <= |keys|
        invariant Find(keys, id) == if Find(keys[i..], id) == -1 then -1 else i + Find(keys[i..], id)
      {
        if keys[i].keyId == id {
          return i;
        }
        assert keys[i..][1..] == keys[i + 1..];
        i := i + 1;
      }
      return -1;
    }

    method Run(cmd: Command, digest: Digest) returns (failure: Option<Failure>)
      modifies this
      ensures failure == CommandError(Lookup(old(keys), cmd.keyId), cmd)
      ensures keys == Execute(old(keys), cmd, digest)
    {
      if FlagError(cmd).Some? {
        return FlagError(cmd);
      }
      var index := FindKey(cmd.keyId);
      match cmd {
        case Rotate(id, decoded, notBefore, notAfter, now) =>
          var bytes := decoded.value;
          if index >= 0 {
            var key := keys[index];
            if key.revoked {
              return Some(KeyRevoked);
            }
            key := key.(algorithm := "ed25519", publicKey := bytes, hash := digest(bytes));
            key := key.(rotatedAt := Some(now / SECOND), notBefore := Normalized(notBefore));
            key := key.(notAfter := Normalized(notAfter));
            keys := keys[index := key];
          } else {
            keys := keys + [TrustKey(id, "ed25519", bytes, digest(bytes), now / SECOND, None, Normalized(notBefore),
                                     Normalized(notAfter), false, None, "")];
          }
        case Revoke(id, reason, now) =>
          if index < 0 {
            return Some(NotFound);
          }
          var key := keys[index];
          if !key.revoked {
            key := key.(revoked := true, revokedAt := Some(now / SECOND));
          }
          key := key.(reason := TrimSpace(reason));
          keys := keys[index := key];
      }
      keys := Saved(keys);
      return None;
    }

    method ActiveKeys(now: int) returns (active: seq<TrustKey>)
      ensures active == Active(keys, now)
    {
      hide TrustStatus;
      active := [];
      assert keys[0..] == keys;
      for i := 0 to |keys|
        invariant Active(keys, now) == active + Active(keys[i..], now)
      {
        ghost var rest := Active(keys[i + 1..], now);
        assert keys[i..][1..] == keys[i + 1..];
        if TrustStatus(keys[i], now) == Trusted {
          assert active + ([keys[i]] + rest) == (active + [keys[i]]) + rest;
          active := active + [keys[i]];
        } else {
          assert [] + rest == rest;
        }
      }
    }

    method SelectKey(id: string, now: int) returns (key: Option<TrustKey>)
      ensures key == Select(keys, id, now)
    {
      if id != "" {
        var index := FindKey(id);
        return if index < 0 then None else Some(keys[index]);
      }
      var active := ActiveKeys(now);
      return if |active| == 1 then Some(active[0]) else None;
    }
  }

  function Select(keys: seq<TrustKey>, id: string, now: int): Option<TrustKey> {
    if id != "" then Lookup(keys, id)
    else if |Active(keys, now)| == 1 then Some(Active(keys, now)[0])
    else None
  }

  // ---------------------------------------------------------------- every sequence of commands

  function After(keys: seq<TrustKey>, cmds: seq<Command>, digest: Digest): seq<TrustKey>
    decreases |cmds|
  {
    if cmds == [] then keys else After(Execute(keys, cmds[0], digest), cmds[1..], digest)
  }

  // One key's history: the commands that name it.
  function Fold(key: Option<TrustKey>, id: string, cmds: seq<Command>, digest: Digest): Option<TrustKey>
    decreases |cmds|
  {
    if cmds == [] then key
    else Fold(if cmds[0].keyId == id then NextKey(key, cmds[0], digest) else key, id, cmds[1..], digest)
  }

  // From any stored list, each key evolves by the commands that name it, whatever the sorting does.
  lemma {:induction false} StoreIsPerKey(keys: seq<TrustKey>, cmds: seq<Command>, digest: Digest, id: string)
    ensures Lookup(After(keys, cmds, digest), id) == Fold(Lookup(keys, id), id, cmds, digest)
    decreases |cmds|
  {
    if cmds != [] {
      ExecuteIsPerKey(keys, cmds[0], digest, id);
      StoreIsPerKey(Execute(keys, cmds[0], digest), cmds[1..], digest, id);
    }
  }

  // What every key of a store built by commands looks like.
  predicate WellFormed(key: TrustKey, digest: Digest) {
    && key.keyId != "" && key.algorithm == "ed25519"
    && |key.publicKey| == KEY_SIZE && key.hash == digest(key.publicKey)
    && !key.notBefore.Malformed? && !key.notAfter.Malformed?
    && (key.revoked <==> key.revokedAt.Some?)
  }

  lemma {:induction false} FoldIsWellFormed(key: Option<TrustKey>, id: string, cmds: seq<Command>, digest: Digest)
    requires key.Some? ==> WellFormed(key.value, digest)
    ensures Fold(key, id, cmds, digest).Some? ==> WellFormed(Fold(key, id, cmds, digest).value, digest)
    decreases |cmds|
  {
    if cmds != [] {
      FoldIsWellFormed(if cmds[0].keyId == id then NextKey(key, cmds[0], digest) else key, id, cmds[1..], digest);
    }
  }

  lemma {:induction false} AfterKeepsOrder(keys: seq<TrustKey>, cmds: seq<Command>, digest: Digest)
    requires SortedById(keys) && DistinctIds(keys)
    ensures SortedById(After(keys, cmds, digest)) && DistinctIds(After(keys, cmds, digest))
    decreases |cmds|
  {
    if cmds != [] {
      ExecuteKeepsOrder(keys, cmds[0], digest);
      AfterKeepsOrder(Execute(keys, cmds[0], digest), cmds[1..], digest);
    }
  }

  lemma {:induction false} DistinctLookup(keys: seq<TrustKey>, key: TrustKey)
    requires DistinctIds(keys) && key in keys
    ensures Lookup(keys, key.keyId) == Some(key)
  {
    if keys[0] == key {
    } else {
      var i :| 0 <= i < |keys| && keys[i] == key;
      assert keys[1..][i - 1] == key;
      DistinctLookup(keys[1..], key);
    }
  }

  // Over every sequence of commands from the empty store: ids stay distinct and strictly sorted, and
  // every key is well formed, so that none of them has an invalid status.
  lemma StoresStayInOrder(cmds: seq<Command>, digest: Digest, now: int)
    ensures var keys := After([], cmds, digest);
            && (forall i, j :: 0 <= i < j < |keys| ==> StringLess(keys[i].keyId, keys[j].keyId))
            && (forall k :: k in keys ==> WellFormed(k, digest) && TrustStatus(k, now) != Invalid)
  {
    var keys := After([], cmds, digest);
    AfterKeepsOrder([], cmds, digest);
    forall i, j | 0 <= i < j < |keys|
      ensures StringLess(keys[i].keyId, keys[j].keyId)
    {
      StringLessTotal(keys[i].keyId, keys[j].keyId);
    }
    forall k | k in keys
      ensures WellFormed(k, digest)
    {
      DistinctLookup(keys, k);
      StoreIsPerKey([], cmds, digest, k.keyId);
      FoldIsWellFormed(None, k.keyId, cmds, digest);
    }
  }

  // The trimmed reason of the last revoke command for the id, if there is one.
  function LastReason(cmds: seq<Command>, id: string, default: string): string
    decreases |cmds|
  {
    if cmds == [] then default
    else LastReason(cmds[1..], id,
                    if cmds[0].Revoke? && cmds[0].keyId == id && id != "" then TrimSpace(cmds[0].reason) else default)
  }

  lemma {:induction false} RevokedFold(key: TrustKey, id: string, cmds: seq<Command>, digest: Digest)
    requires key.revoked && key.keyId == id
    ensures Fold(Some(key), id, cmds, digest) == Some(key.(reason := LastReason(cmds, id, key.reason)))
    decreases |cmds|
  {
    if cmds != [] {
      var next := if cmds[0].keyId == id then NextKey(Some(key), cmds[0], digest) else Some(key);
      assert next == Some(key.(reason := next.value.reason));
      RevokedFold(next.value, id, cmds[1..], digest);
    }
  }

  // A revoked key stays: whatever commands follow, only its reason can change, to that of the last
  // revoke command. It is never active nor selected on its own again; asked for by its id it is
  // reported as revoked.
  lemma RevocationIsFinal(keys: seq<TrustKey>, cmds: seq<Command>, digest: Digest, id: string, now: int)
    requires DistinctIds(keys) && Lookup(keys, id).Some? && Lookup(keys, id).value.revoked
    ensures var before, later := Lookup(keys, id).value, After(keys, cmds, digest);
            && Lookup(later, id) == Some(before.(reason := LastReason(cmds, id, before.reason)))
            && (forall k :: k in Active(later, now) ==> k.keyId != id)
            && (forall k :: Select(later, "", now) == Some(k) ==> k.keyId != id)
            && (id != "" ==> Select(later, id, now).Some? && TrustStatus(Select(later, id, now).value, now) == Revoked)
  {
    var later := After(keys, cmds, digest);
    StoreIsPerKey(keys, cmds, digest, id);
    RevokedFold(Lookup(keys, id).value, id, cmds, digest);
    DistinctAfter(keys, cmds, digest);
    forall k | k in Active(later, now)
      ensures k.keyId != id
    {
      DistinctLookup(later, k);
    }
  }

  lemma {:induction false} DistinctAfter(keys: seq<TrustKey>, cmds: seq<Command>, digest: Digest)
    requires DistinctIds(keys)
    ensures DistinctIds(After(keys, cmds, digest))
    decreases |cmds|
  {
    if cmds != [] {
      ExecuteKeepsOrder(keys, cmds[0], digest);
      DistinctAfter(Execute(keys, cmds[0], digest), cmds[1..], digest);
    }
  }

  // The first revocation counts: from any stored list, the revoke command that finds a key not revoked
  // sets its revocation time for good, whatever commands follow.
  lemma FirstRevocationCounts(
      keys: seq<TrustKey>, revoke: Command, later: seq<Command>, digest: Digest, key: TrustKey)
    requires Lookup(keys, key.keyId) == Some(key) && !key.revoked
    requires revoke.Revoke? && revoke.keyId == key.keyId != ""
    ensures Lookup(After(keys, [revoke] + later, digest), key.keyId) ==
            Some(key.(revoked := true, revokedAt := Some(revoke.now / SECOND),
                      reason := LastReason([revoke] + later, key.keyId, "")))
  {
    var cmds, id := [revoke] + later, key.keyId;
    StoreIsPerKey(keys, cmds, digest, id);
    assert cmds[1..] == later;
    RevokedFold(NextKey(Some(key), revoke, digest).value, id, later, digest);
  }

  // ---------------------------------------------------------------- selection

  predicate OnlyActive(keys: seq<TrustKey>, i: nat, now: int) {
    && i < |keys| && TrustStatus(keys[i], now) == Trusted
    && forall j :: 0 <= j < |keys| && j != i ==> TrustStatus(keys[j], now) != Trusted
  }

  lemma OnlyActiveShift(keys: seq<TrustKey>, i: nat, now: int)
    requires keys != [] && TrustStatus(keys[0], now) != Trusted
    ensures OnlyActive(keys[1..], i, now) <==> OnlyActive(keys, i + 1, now)
  {
    if OnlyActive(keys[1..], i, now) {
      forall j | 0 <= j < |keys| && j != i + 1
        ensures TrustStatus(keys[j], now) != Trusted
      {
        if j > 0 {
          assert keys[j] == keys[1..][j - 1];
        }
      }
    }
    if OnlyActive(keys, i + 1, now) {
      forall j | 0 <= j < |keys[1..]| && j != i
        ensures TrustStatus(keys[1..][j], now) != Trusted
      {
        assert keys[1..][j] == keys[j + 1];
      }
    }
  }

  lemma {:induction false} NoneActive(keys: seq<TrustKey>, now: int)
    requires forall k :: k in keys ==> TrustStatus(k, now) != Trusted
    ensures Active(keys, now) == []
  {
    if keys != [] {
      assert keys[0] in keys;
      NoneActive(keys[1..], now);
    }
  }

  lemma {:induction false} OnlyActiveIsListed(keys: seq<TrustKey>, i: nat, now: int)
    requires OnlyActive(keys, i, now)
    ensures Active(keys, now) == [keys[i]]
    decreases |keys|
  {
    if i == 0 {
      NoneActive(keys[1..], now);
    } else {
      OnlyActiveShift(keys, i - 1, now);
      OnlyActiveIsListed(keys[1..], i - 1, now);
    }
  }

  lemma {:induction false} SingleActive(keys: seq<TrustKey>, now: int) returns (i: nat)
    requires |Active(keys, now)| == 1
    ensures OnlyActive(keys, i, now)
    decreases |keys|
  {
    if TrustStatus(keys[0], now) == Trusted {
      i := 0;
      assert Active(keys[1..], now) == [];
      forall j | 0 < j < |keys|
        ensures TrustStatus(keys[j], now) != Trusted
      {
        assert keys[j] in keys[1..];
      }
    } else {
      i := SingleActive(keys[1..], now);
      OnlyActiveShift(keys, i, now);
      i := i + 1;
    }
  }

  // Without an id, selection succeeds exactly when one position of the list is active, and yields the
  // key there; with an id it yields the key of that id, active or not.
  lemma SelectionIsUnique(keys: seq<TrustKey>, id: string, now: int)
    ensures Select(keys, "", now).Some? <==> exists i: nat :: OnlyActive(keys, i, now)
    ensures forall i: nat :: OnlyActive(keys, i, now) ==> Select(keys, "", now) == Some(keys[i])
    ensures id != "" ==> Select(keys, id, now) == Lookup(keys, id)
  {
    forall i: nat | OnlyActive(keys, i, now)
      ensures Active(keys, now) == [keys[i]]
    {
      OnlyActiveIsListed(keys, i, now);
    }
    if |Active(keys, now)| == 1 {
      var _ := SingleActive(keys, now);
    }
  }

  // ---------------------------------------------------------------- the rules, stated outright

  // A key of a store built by commands is trusted exactly when it is not revoked and the time lies in
  // its window, both ends included; otherwise its status says what is wrong first.
  lemma StatusExactly(key: TrustKey, digest: Digest, now: int)
    requires WellFormed(key, digest)
    ensures TrustStatus(key, now) == Trusted <==>
              && !key.revoked
              && (key.notBefore.At? ==> key.notBefore.seconds * 1_000_000_000 <= now)
              && (key.notAfter.At? ==> now <= key.notAfter.seconds * 1_000_000_000)
    ensures TrustStatus(key, now) == Revoked <==> key.revoked
    ensures TrustStatus(key, now) == NotYetValid <==>
              !key.revoked && key.notBefore.At? && now < key.notBefore.seconds * 1_000_000_000
    ensures TrustStatus(key, now) == Expired ==> key.notAfter.At? && key.notAfter.seconds * 1_000_000_000 < now
  {
  }

  // A key whose text was edited by hand: an unknown algorithm or a window that does not parse is an error,
  // unless the key is revoked, or its other bound already decides.
  lemma EditedKeys(key: TrustKey, now: int)
    requires !key.revoked
    ensures key.algorithm != "" && key.algorithm != "ed25519" ==> TrustStatus(key, now) == Invalid
    ensures key.notBefore.Malformed? ==> TrustStatus(key, now) == Invalid
    ensures key.notAfter.Malformed? ==> TrustStatus(key, now) in {Invalid, NotYetValid}
  {
  }

  // Which commands fail, and for what.
  lemma CommandErrorExactly(key: Option<TrustKey>, cmd: Command)
    ensures cmd.Rotate? ==>
              (CommandError(key, cmd).None? <==>
                 && cmd.keyId != "" && cmd.decodedKey.Some? && |cmd.decodedKey.value| == 32
                 && !cmd.notBefore.Garbled? && !cmd.notAfter.Garbled?
                 && (key.Some? ==> !key.value.revoked))
    ensures cmd.Revoke? ==> (CommandError(key, cmd).None? <==> cmd.keyId != "" && key.Some?)
    ensures CommandError(key, cmd) == Some(KeyRevoked) ==> cmd.Rotate? && key.Some? && key.value.revoked
    ensures CommandError(key, cmd) == Some(NotFound) ==> cmd.Revoke? && key.None?
  {
  }

  // The stored bound of a flag is the instant without the fraction of its second.
  lemma NormalizedExactly(flag: StampFlag)
    ensures flag.Blank? <==> Normalized(flag) == Unset
    ensures flag.Instant? ==>
              && Normalized(flag).At?
              && Normalized(flag).seconds * 1_000_000_000 <= flag.nanoseconds
              && flag.nanoseconds < (Normalized(flag).seconds + 1) * 1_000_000_000
  {
  }

  // After a rotation the id names the new key, in the new window and not revoked; a key that was there
  // keeps its creation time, and a new one has none of rotation. No other key changes.
  lemma RotationTakesEffect(keys: seq<TrustKey>, cmd: Command, digest: Digest, other: string)
    requires cmd.Rotate? && CommandError(Lookup(keys, cmd.keyId), cmd).None? && other != cmd.keyId
    ensures var before, after := Lookup(keys, cmd.keyId), Lookup(Execute(keys, cmd, digest), cmd.keyId);
            && after.Some? && after.value.keyId == cmd.keyId && after.value.algorithm == "ed25519"
            && after.value.publicKey == cmd.decodedKey.value && after.value.hash == digest(cmd.decodedKey.value)
            && after.value.notBefore == Normalized(cmd.notBefore) && after.value.notAfter == Normalized(cmd.notAfter)
            && !after.value.revoked
            && (before.Some? ==> after.value.createdAt == before.value.createdAt
                                 && after.value.rotatedAt == Some(cmd.now / 1_000_000_000))
            && (before.None? ==> after.value.createdAt == cmd.now / 1_000_000_000 && after.value.rotatedAt == None
                                 && after.value.revokedAt == None && after.value.reason == "")
    ensures Lookup(Execute(keys, cmd, digest), other) == Lookup(keys, other)
  {
    ExecuteIsPerKey(keys, cmd, digest, cmd.keyId);
    ExecuteIsPerKey(keys, cmd, digest, other);
  }
}
