/** When the id of a new transfer is new. */
module UcmIds {
  import opened Bytes
  import opened FilePaths
  import opened UcmModel
  import opened UcmSessions

  lemma {:induction false} DecimalInjective(m: nat, n: nat)
    requires Decimal(m) == Decimal(n)
    ensures m == n
    decreases m
  {
    assert (|Decimal(m)| == 1 <==> m < 10) && (|Decimal(n)| == 1 <==> n < 10);
    assert Last(Decimal(m)) == 48 + m % 10 && Last(Decimal(n)) == 48 + n % 10;
    if m >= 10 {
      assert Decimal(m)[..|Decimal(m)| - 1] == Decimal(m / 10) && Decimal(n)[..|Decimal(n)| - 1] == Decimal(n / 10);
      DecimalInjective(m / 10, n / 10);
    }
  }

  /** The number a text of decimal digits stands for. */
  function Number(t: Text): int {
    if t == [] then 0 else 10 * Number(t[..|t| - 1]) + (t[|t| - 1] as int - 48)
  }

  /** An id is the decimal number of its transfer, without leading zeros. */
  lemma {:induction false} DecimalValue(n: nat)
    ensures Number(Decimal(n)) == n
    ensures forall c :: c in Decimal(n) ==> 48 <= c <= 57
    ensures n > 0 ==> Decimal(n)[0] != 48
    decreases n
  {
    if n >= 10 {
      DecimalValue(n / 10);
      assert Decimal(n)[..|Decimal(n)| - 1] == Decimal(n / 10);
    }
  }

  /** The id is one of the first n the service issues. */
  ghost predicate Below(n: nat, id: Text) {
    exists k: nat :: k < n && id == Decimal(k)
  }

  ghost predicate Issued(trace: seq<Event>, id: Text) {
    exists i :: 0 <= i < |trace| && trace[i].Opened? && trace[i].id == id
  }

  lemma NextIsNew(n: nat)
    ensures !Below(n, Decimal(n))
  {
    hide Decimal;
    forall k: nat | k < n && Decimal(n) == Decimal(k) ensures false { DecimalInjective(n, k); }
  }

  /** Every id that was issued has a number below the next, and no two are the same. */
  ghost predicate Numbered(u: Ucm) {
    && (forall id :: Issued(u.trace, id) ==> Below(u.nextId, id))
    && (forall i, j :: 0 <= i < j < |u.trace| && u.trace[i].Opened? && u.trace[j].Opened? ==>
          u.trace[i].id != u.trace[j].id)
  }

  /** A call adds at most one event; only a start issues an id, the next one. */
  lemma TraceStep(env: Env, u: Ucm, op: Op)
    requires op != Reboot
    ensures var u' := Apply(env, u, op).ucm;
      && u.nextId <= u'.nextId
      && (|| u'.trace == u.trace
          || (|u'.trace| == |u.trace| + 1 && u'.trace[..|u.trace|] == u.trace &&
              var e := u'.trace[|u.trace|];
              e.Opened? ==> op.Start? && e.id == Decimal(u.nextId) && u'.nextId == u.nextId + 1))
  {
    hide Decimal, MetaFile, PackageFile, ImageFile, SessionBytes, ParseSession, ContentsVerdict;
  }

  lemma StepNumbered(env: Env, u: Ucm, op: Op)
    requires Numbered(u) && op != Reboot
    ensures Numbered(Apply(env, u, op).ucm)
  {
    hide Apply, Decimal;
    TraceStep(env, u, op);
    NextIsNew(u.nextId);
    var u' := Apply(env, u, op).ucm;
    forall id | Issued(u'.trace, id) ensures Below(u'.nextId, id) {
      var i :| 0 <= i < |u'.trace| && u'.trace[i].Opened? && u'.trace[i].id == id;
      if i < |u.trace| {
        assert u.trace[i] == u'.trace[i];
        assert Issued(u.trace, id);
      }
    }
    forall i, j | 0 <= i < j < |u'.trace| && u'.trace[i].Opened? && u'.trace[j].Opened?
      ensures u'.trace[i].id != u'.trace[j].id
    {
      assert u.trace[i] == u'.trace[i];
      if j < |u.trace| {
        assert u.trace[j] == u'.trace[j];
      } else {
        assert Issued(u.trace, u'.trace[i].id);
      }
    }
  }

  lemma {:induction false} RunNumbered(env: Env, start: Ucm, ops: seq<Op>)
    requires start.trace == [] && Reboot !in ops
    ensures Numbered(Run(env, start, ops))
    decreases |ops|
  {
    hide Apply;
    if ops != [] {
      RunNumbered(env, start, ops[..|ops| - 1]);
      StepNumbered(env, Run(env, start, ops[..|ops| - 1]), ops[|ops| - 1]);
    }
  }

  /** Main result: in a run without restarts a transfer that is started gets an id that no transfer of the
      run was started under before. */
  lemma NewIdEachTime(env: Env, start: Ucm, ops: seq<Op>, size: Word64, available: Option<nat>, openable: bool)
    requires start.trace == [] && Reboot !in ops
    ensures var u := Run(env, start, ops);
      var r := TransferStart(env, u, size, available, openable);
      r.errc == SUCCESS ==> !Issued(u.trace, r.id) && Issued(r.ucm.trace, r.id)
  {
    RunNumbered(env, start, ops);
    hide Run, Decimal, MetaFile, PackageFile, SessionBytes;
    var u := Run(env, start, ops);
    NextIsNew(u.nextId);
    var r := TransferStart(env, u, size, available, openable);
    if r.errc == SUCCESS {
      assert r.ucm.trace[|u.trace|] == Opened(r.id, size);
    }
  }

  /** A start cuts a file to nothing exactly when there is one under the name of the id it issues, and then
      that one; but for the new session file it touches no other. */
  lemma StartEmpties(env: Env, u: Ucm, size: Word64, available: Option<nat>, openable: bool)
    requires TransferStart(env, u, size, available, openable).errc == SUCCESS
    ensures var r := TransferStart(env, u, size, available, openable);
      var package := PackageFile(env, Decimal(u.nextId));
      && r.id == Decimal(u.nextId) && package in r.ucm.files && r.ucm.files[package] == []
      && (forall p :: p in u.files && p !in {package, MetaFile(env, r.id)} ==>
            p in r.ucm.files && r.ucm.files[p] == u.files[p])
      && (forall p :: p in u.files && u.files[p] != [] ==>
            p in r.ucm.files && (r.ucm.files[p] == [] <==> p == package))
  {
    hide Decimal, MetaFile, PackageFile, ImageFile, SafeId, Apart;
    IssuedIdSafe(u.nextId);
    SafeIdsApart(env, Decimal(u.nextId), Decimal(u.nextId));
  }

  /** Main result: the first transfer started after a restart is given the very first id again. If a
      transfer is kept under it, its blocks are gone from disk and from the session, whatever they were. */
  lemma RestartReissues(env: Env, u: Ucm, size: Word64, available: Option<nat>, openable: bool)
    requires TransferStart(env, Restart(u), size, available, openable).errc == SUCCESS
    requires Sound(env, u, Decimal(1))
    ensures var r := TransferStart(env, Restart(u), size, available, openable);
      var package := PackageFile(env, r.id);
      && r.id == Decimal(1)
      && package in r.ucm.files && r.ucm.files[package] == [] && Blocks(r.ucm.trace, r.id) == []
      && Sound(env, r.ucm, r.id)
      && (MetaFile(env, r.id) in u.files ==>
            package in u.files && u.files[package] == Flatten(Blocks(u.trace, r.id)))
  {
    hide Decimal, MetaFile, PackageFile, ImageFile, SessionBytes, ParseSession, SafeId, Apart, Blocks, Flatten;
    IssuedIdSafe(1);
    SafeIdsApart(env, Decimal(1), Decimal(1));
    RestartSound(env, u, Decimal(1));
    StartEmpties(env, Restart(u), size, available, openable);
    StartSound(env, Restart(u), size, available, openable);
    BlocksAfter(u.trace, Opened(Decimal(1), size), Decimal(1));
  }
}
