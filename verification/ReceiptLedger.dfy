/** The evidence directory: create-only receipts, each with a SHA-256 sidecar that is
    written first (scripts/leitstand-release.py, `write_receipt`). */
module ReceiptLedger {
  import opened Common

  /** The parts of a receipt that later code reads back; `payload` is the rest. */
  datatype Receipt = Receipt(kind: string, attempt: string, success: bool, head: string, payload: string)

  /** The record that marks one deployment key as completed. */
  datatype Completion = Completion(key: Key, head: string, configSha: string, receiptPath: string,
                                   receiptSha: Digest, completedAt: string)

  /** A deployment key is the SHA-256 of the two identities it is made from. */
  datatype Key = KeyOf(head: string, configSha: string)

  /** Contents of a file.  Canonical JSON is identified with the value it encodes. */
  datatype File =
    | ReceiptFile(receipt: Receipt)
    | CompletionFile(completion: Completion)
    | SidecarFile(digest: Digest, name: string)
    | CompletionSidecarFile(digest: Digest, key: Key)
    | Truncated

  /** SHA-256, taken to be injective: a digest is its preimage. */
  datatype Digest = Sha256(preimage: File)

  /** How an exclusive create ends: `Exists` is `FileExistsError`; a failed write unlinks
      the file again, except when the interpreter itself is interrupted (`Interrupted`). */
  datatype Create = Created | Exists | Failed | Interrupted

  /** One pass through the retry loop: the random part of the name and the effects' endings. */
  datatype Attempt = Attempt(stem: string, temporary: Create, sidecar: Create, rename: Effect,
                             synced: bool, latest: Effect)

  const ATTEMPTS: nat := 8

  datatype LedgerState = LedgerState(files: map<string, File>, latest: map<string, string>)

  predicate IsReceiptName(name: string) {
    |name| >= 5 && name[|name| - 5..] == ".json"
  }

  function ReceiptName(stem: string, kind: string): (name: string) { stem + "-" + kind + ".json" }

  function TemporaryOf(name: string): string { name + ".tmp" }

  function SidecarOf(name: string): string { name + ".sha256" }

  lemma NamesDisjoint(name: string, other: string)
    ensures !IsReceiptName(TemporaryOf(name)) && !IsReceiptName(SidecarOf(name))
    ensures TemporaryOf(name) != SidecarOf(other)
  {
    var t, s, o := TemporaryOf(name), SidecarOf(name), SidecarOf(other);
    assert t[|t| - 1] == 'p' && s[|s| - 1] == '6' && o[|o| - 1] == '6';
    assert |t| >= 5 ==> t[|t| - 5..][4] == 'p';
    assert |s| >= 5 ==> s[|s| - 5..][4] == '6';
  }

  lemma ReceiptNameIsOne(stem: string, kind: string)
    ensures IsReceiptName(ReceiptName(stem, kind))
  {
    var r := ReceiptName(stem, kind);
    assert r[|r| - 5..] == ".json";
  }

  /** Every visible receipt is a receipt whose sidecar holds its digest and name, and
      every `latest-<kind>` link names a visible receipt of that kind. */
  ghost predicate Consistent(s: LedgerState) {
    && (forall name :: name in s.files && IsReceiptName(name) ==>
         && s.files[name].ReceiptFile?
         && SidecarOf(name) in s.files
         && s.files[SidecarOf(name)] == SidecarFile(Sha256(s.files[name]), name))
    && (forall kind :: kind in s.latest ==>
         && s.latest[kind] in s.files && IsReceiptName(s.latest[kind])
         && s.files[s.latest[kind]].ReceiptFile?
         && s.files[s.latest[kind]].receipt.kind == kind)
  }

  /** Create-only: every receipt of the earlier state is still there, with its bytes. */
  ghost predicate KeepsReceipts(earlier: map<string, File>, later: map<string, File>) {
    forall name :: name in earlier && IsReceiptName(name) ==> name in later && later[name] == earlier[name]
  }

  /** What every state reached from `start` must satisfy. */
  ghost predicate Sound(start: LedgerState, s: LedgerState) {
    Consistent(s) && KeepsReceipts(start.files, s.files)
  }

  /** Every state from position `from` on is sound: a crash can expose any of them. */
  ghost predicate Recorded(start: LedgerState, trace: seq<LedgerState>, from: nat) {
    forall k :: from <= k < |trace| ==> Sound(start, trace[k])
  }

  /** Neither a receipt nor the sidecar of a visible one. */
  ghost predicate Scratch(s: LedgerState, name: string) {
    !IsReceiptName(name) && forall r :: r in s.files && IsReceiptName(r) ==> name != SidecarOf(r)
  }

  /** Body and matching sidecar are in place; only the rename is missing. */
  ghost predicate Staged(s: LedgerState, name: string) {
    && IsReceiptName(name) && name !in s.files
    && TemporaryOf(name) in s.files && s.files[TemporaryOf(name)].ReceiptFile?
    && SidecarOf(name) in s.files
    && s.files[SidecarOf(name)] == SidecarFile(Sha256(s.files[TemporaryOf(name)]), name)
  }

  lemma FreshNamesAreScratch(s: LedgerState, name: string)
    requires name !in s.files
    ensures Scratch(s, TemporaryOf(name)) && Scratch(s, SidecarOf(name))
  {
    forall other { NamesDisjoint(name, other); }
    forall r | r in s.files && IsReceiptName(r)
      ensures SidecarOf(name) != SidecarOf(r)
    {
      assert SidecarOf(name)[..|name|] == name && SidecarOf(r)[..|r|] == r;
    }
  }

  /** Files that are not receipts and no receipt's sidecar come and go freely. */
  lemma ScratchIsSound(start: LedgerState, s: LedgerState, next: LedgerState, name: string)
    requires Sound(start, s)
    requires Scratch(s, name)
    requires next.latest == s.latest && next.files - {name} == s.files - {name}
    ensures Sound(start, next)
  {
    forall n | n != name
      ensures n in next.files <==> n in s.files
      ensures n in s.files ==> next.files[n] == s.files[n]
    {
      assert n in next.files - {name} <==> n in s.files - {name};
      if n in s.files { assert (next.files - {name})[n] == (s.files - {name})[n]; }
    }
  }

  lemma RenameIsSound(start: LedgerState, s: LedgerState, next: LedgerState, name: string)
    requires Sound(start, s)
    requires Staged(s, name)
    requires next.latest == s.latest
    requires next.files == (s.files - {TemporaryOf(name)})[name := s.files[TemporaryOf(name)]]
    ensures Sound(start, next)
  {
    forall n | n in s.files && IsReceiptName(n)
      ensures n in next.files && next.files[n] == s.files[n]
      ensures SidecarOf(n) in next.files && next.files[SidecarOf(n)] == s.files[SidecarOf(n)]
    {
      NamesDisjoint(name, n);
      NamesDisjoint(n, n);
    }
    NamesDisjoint(name, name);
  }

  class Ledger {
    var files: map<string, File>
    var latest: map<string, string>
    /** Every state the directory has been in. */
    ghost var trace: seq<LedgerState>

    constructor ()
      ensures Consistent(Now()) && Now() == LedgerState(map[], map[]) && trace == []
    {
      files, latest := map[], map[];
      trace := [];
    }

    function Now(): LedgerState
      reads this
    {
      LedgerState(files, latest)
    }

    /** Since the trace had `from` entries, starting in `start`, every state has been sound. */
    ghost predicate Tracks(start: LedgerState, from: nat)
      reads this
    {
      Sound(start, Now()) && Recorded(start, trace, from)
    }

    /** `write_create_only` of a file that is neither a receipt nor some receipt's sidecar. */
    method WriteCreateOnly(name: string, content: File, how: Create, ghost start: LedgerState, ghost from: nat)
      returns (r: Create)
      requires Tracks(start, from)
      requires Scratch(Now(), name)
      modifies `files, `trace
      ensures Tracks(start, from) && old(trace) <= trace
      ensures r == if how.Created? && name in old(files) then Exists else how
      ensures files ==
        if r.Created? then old(files)[name := content]
        else if r.Interrupted? && name !in old(files) then old(files)[name := Truncated]
        else old(files)
    {
      r := if how.Created? && name in files then Exists else how;
      if name !in files && !how.Exists? {
        files := files[name := Truncated];
        ScratchIsSound(start, old(Now()), Now(), name);
        trace := trace + [Now()];
        files := if how.Created? then files[name := content] else if how.Failed? then files - {name} else files;
      }
      ScratchIsSound(start, old(Now()), Now(), name);
      trace := trace + [Now()];
    }

    /** `unlink(missing_ok=True)` */
    method Unlink(name: string, ghost start: LedgerState, ghost from: nat)
      requires Tracks(start, from)
      requires Scratch(Now(), name)
      modifies `files, `trace
      ensures Tracks(start, from) && old(trace) <= trace
      ensures files == old(files) - {name}
    {
      files := files - {name};
      ScratchIsSound(start, old(Now()), Now(), name);
      trace := trace + [Now()];
    }

    /** `os.rename` of the temporary body onto the receipt's name. */
    method Rename(name: string, how: Effect, ghost start: LedgerState, ghost from: nat) returns (raised: bool)
      requires Tracks(start, from)
      requires Staged(Now(), name)
      modifies `files, `trace
      ensures Tracks(start, from) && old(trace) <= trace
      ensures raised == how.Raises()
      ensures files == how.Apply(old(files), (old(files) - {TemporaryOf(name)})[name := old(files)[TemporaryOf(name)]])
    {
      if how.TakesEffect() {
        var content := files[TemporaryOf(name)];
        files := (files - {TemporaryOf(name)})[name := content];
        RenameIsSound(start, old(Now()), Now(), name);
      }
      raised := how.Raises();
      trace := trace + [Now()];
    }

    /** `atomic_symlink` of `latest-<kind>.json`. */
    method PointLatest(kind: string, name: string, how: Effect, ghost start: LedgerState, ghost from: nat)
      returns (raised: bool)
      requires Tracks(start, from)
      requires name in files && IsReceiptName(name) && files[name].ReceiptFile? && files[name].receipt.kind == kind
      modifies `latest, `trace
      ensures Tracks(start, from) && old(trace) <= trace
      ensures raised == how.Raises()
      ensures latest == how.Apply(old(latest), old(latest)[kind := name])
    {
      if how.TakesEffect() { latest := latest[kind := name]; }
      raised := how.Raises();
      trace := trace + [Now()];
    }

    /** Creates the temporary body, then the sidecar under the final name. */
    method Stage(name: string, body: File, attempt: Attempt, ghost start: LedgerState, ghost from: nat)
      returns (r: Create)
      requires Tracks(start, from)
      requires IsReceiptName(name) && body.ReceiptFile?
      requires name !in files && SidecarOf(name) !in files && TemporaryOf(name) !in files
      modifies `files, `trace
      ensures Tracks(start, from) && old(trace) <= trace
      ensures r == if attempt.temporary.Created? then attempt.sidecar else attempt.temporary
      ensures r.Exists? ==> files == old(files)
      ensures r.Created? ==>
        files == old(files)[TemporaryOf(name) := body][SidecarOf(name) := SidecarFile(Sha256(body), name)]
      ensures SameReceipts(old(files), files)
    {
      var temporary, sidecar := TemporaryOf(name), SidecarOf(name);
      FreshNamesAreScratch(Now(), name);
      r := WriteCreateOnly(temporary, body, attempt.temporary, start, from);
      if r.Created? {
        FreshNamesAreScratch(Now(), name);
        r := WriteCreateOnly(sidecar, SidecarFile(Sha256(body), name), attempt.sidecar, start, from);
        if r.Exists? {
          FreshNamesAreScratch(Now(), name);
          Unlink(temporary, start, from);
        }
      }
    }

    /** One pass of the retry loop of `write_receipt`. */
    method TryAttempt(receipt: Receipt, attempt: Attempt, ghost start: LedgerState, ghost from: nat)
      returns (r: Tried)
      requires Tracks(start, from)
      modifies this
      ensures Tracks(start, from) && old(trace) <= trace
      ensures r.Collision? <==> Collides(receipt.kind, attempt, old(files))
      ensures r.Collision? ==> Now() == old(Now())
      ensures OnlyAdds(old(files), files, ReceiptFile(receipt), ReceiptName(attempt.stem, receipt.kind))
      ensures r.Published? <==> !Collides(receipt.kind, attempt, old(files)) && Publishes(attempt)
      ensures r.Published? ==>
        && r.name == ReceiptName(attempt.stem, receipt.kind)
        && r.name !in old(files) && r.name in files && files[r.name] == ReceiptFile(receipt)
        && latest == old(latest)[receipt.kind := r.name]
      ensures !r.Collision? ==>
        Adds(old(Now()), Now(), receipt, ReceiptName(attempt.stem, receipt.kind), Shows(attempt), Points(attempt))
    {
      var body := ReceiptFile(receipt);
      var name := ReceiptName(attempt.stem, receipt.kind);
      ReceiptNameIsOne(attempt.stem, receipt.kind);
      if name in files || SidecarOf(name) in files || TemporaryOf(name) in files {
        return Collision;
      }
      var staged := Stage(name, body, attempt, start, from);
      if !staged.Created? {
        return if staged.Exists? then Collision else Stopped;
      }
      r := Publish(receipt, name, attempt, start, from);
    }

    /** The last statements of one pass: rename, directory sync, link. */
    method Publish(receipt: Receipt, name: string, attempt: Attempt, ghost start: LedgerState, ghost from: nat)
      returns (r: Tried)
      requires Tracks(start, from)
      requires Staged(Now(), name) && files[TemporaryOf(name)] == ReceiptFile(receipt)
      requires attempt.temporary.Created? && attempt.sidecar.Created?
      modifies this
      ensures Tracks(start, from) && old(trace) <= trace
      ensures r == if Publishes(attempt) then Published(name) else Stopped
      ensures Adds(old(Now()), Now(), receipt, name, Shows(attempt), Points(attempt))
    {
      NamesDisjoint(name, name);
      var raised := Rename(name, attempt.rename, start, from);
      if raised || !attempt.synced {
        return Stopped;
      }
      raised := PointLatest(receipt.kind, name, attempt.latest, start, from);
      return if raised then Stopped else Published(name);
    }

    /** `write_receipt`.  `None` is an exception. */
    method WriteReceipt(receipt: Receipt, attempts: seq<Attempt>, ghost start: LedgerState, ghost from: nat)
      returns (r: Option<(string, Digest)>)
      requires |attempts| == ATTEMPTS
      requires Tracks(start, from)
      modifies this
      ensures Tracks(start, from) && old(trace) <= trace
      ensures exists name :: OnlyAdds(old(files), files, ReceiptFile(receipt), name)
      ensures r.Some? <==> CanPublish(receipt.kind, attempts, old(files))
      ensures r.Some? ==>
        var (name, digest) := r.value;
        && name !in old(files) && IsReceiptName(name) && name in files
        && OnlyAdds(old(files), files, ReceiptFile(receipt), name)
        && files[name] == ReceiptFile(receipt) && digest == Sha256(ReceiptFile(receipt))
        && latest == old(latest)[receipt.kind := name]
      ensures Writes(old(Now()), Now(), receipt, attempts)
      ensures r.Some? ==> r.value.0 == NewName(receipt.kind, attempts, old(files))
    {
      for i := 0 to ATTEMPTS
        invariant Now() == old(Now())
        invariant Tracks(start, from) && old(trace) <= trace
        invariant forall j: nat :: j < i ==> Collides(receipt.kind, attempts[j], old(files))
      {
        var tried := TryAttempt(receipt, attempts[i], start, from);
        if !tried.Collision? { FirstFreeIs(receipt.kind, attempts, old(files), 0, i); }
        if tried.Published? {
          ReceiptNameIsOne(attempts[i].stem, receipt.kind);
          assert PublishedAt(receipt.kind, attempts, i, old(files));
          return Some((tried.name, Sha256(ReceiptFile(receipt))));
        } else if tried.Stopped? {
          return None;
        }
      }
      assert OnlyAdds(old(files), files, ReceiptFile(receipt), "");
      FirstFreeIs(receipt.kind, attempts, old(files), 0, ATTEMPTS);
      return None;
    }
  }

  datatype Tried = Collision | Stopped | Published(name: string)

  /** The attempt ends in `continue`: its name is taken, or an exclusive create says so. */
  predicate Collides(kind: string, attempt: Attempt, files: map<string, File>) {
    var name := ReceiptName(attempt.stem, kind);
    || name in files || SidecarOf(name) in files || TemporaryOf(name) in files
    || attempt.temporary.Exists?
    || (attempt.temporary.Created? && attempt.sidecar.Exists?)
  }

  predicate Publishes(attempt: Attempt) {
    && attempt.temporary.Created? && attempt.sidecar.Created?
    && attempt.rename.Done? && attempt.synced && attempt.latest.Done?
  }

  /** All attempts before `k` collide, and `k` runs to its end. */
  predicate PublishedAt(kind: string, attempts: seq<Attempt>, k: nat, files: map<string, File>)
    requires k < |attempts|
  {
    && (forall j: nat :: j < k ==> Collides(kind, attempts[j], files))
    && !Collides(kind, attempts[k], files) && Publishes(attempts[k])
  }

  /** Some attempt is reached and runs to its end. */
  ghost predicate CanPublish(kind: string, attempts: seq<Attempt>, files: map<string, File>) {
    exists k: nat :: k < |attempts| && PublishedAt(kind, attempts, k, files)
  }

  ghost predicate SameReceipts(earlier: map<string, File>, later: map<string, File>) {
    forall n :: IsReceiptName(n) ==> (n in later <==> n in earlier) && (n in earlier ==> later[n] == earlier[n])
  }

  /** At most one receipt becomes visible, under `name`, holding `body`. */
  ghost predicate OnlyAdds(earlier: map<string, File>, later: map<string, File>, body: File, name: string) {
    forall n :: n in later && IsReceiptName(n) ==> n in earlier || (n == name && later[n] == body)
  }

  // ---------------------------------------------------------------- what a write leaves, raised or not

  /** The receipt of the attempt becomes visible. */
  predicate Shows(attempt: Attempt) {
    attempt.temporary.Created? && attempt.sidecar.Created? && attempt.rename.TakesEffect()
  }

  /** `latest-<kind>` comes to name it. */
  predicate Points(attempt: Attempt) {
    Shows(attempt) && attempt.rename.Done? && attempt.synced && attempt.latest.TakesEffect()
  }

  /** Exactly the receipt `name` is new, if it shows; and the link of its kind follows, if it points. */
  ghost predicate Adds(before: LedgerState, after: LedgerState, receipt: Receipt, name: string,
                       shows: bool, points: bool) {
    && KeepsReceipts(before.files, after.files)
    && (forall n :: IsReceiptName(n) ==> (n in after.files <==> n in before.files || (shows && n == name)))
    && (shows ==> IsReceiptName(name) && name !in before.files && after.files[name] == ReceiptFile(receipt))
    && after.latest == if points then before.latest[receipt.kind := name] else before.latest
  }

  /** The first attempt from `i` on that does not collide. */
  function FirstFree(kind: string, attempts: seq<Attempt>, files: map<string, File>, i: nat): (k: nat)
    requires i <= |attempts|
    ensures i <= k <= |attempts|
    ensures forall j :: i <= j < k ==> Collides(kind, attempts[j], files)
    ensures k < |attempts| ==> !Collides(kind, attempts[k], files)
    decreases |attempts| - i
  {
    if i == |attempts| || !Collides(kind, attempts[i], files) then i else FirstFree(kind, attempts, files, i + 1)
  }

  lemma FirstFreeIs(kind: string, attempts: seq<Attempt>, files: map<string, File>, i: nat, k: nat)
    requires i <= k <= |attempts| && forall j: nat :: i <= j < k ==> Collides(kind, attempts[j], files)
    requires k < |attempts| ==> !Collides(kind, attempts[k], files)
    ensures FirstFree(kind, attempts, files, i) == k
  {
  }

  function NewName(kind: string, attempts: seq<Attempt>, files: map<string, File>): string {
    var k := FirstFree(kind, attempts, files, 0);
    if k < |attempts| then ReceiptName(attempts[k].stem, kind) else ""
  }

  /** The write makes its receipt visible, whether or not it then raises. */
  predicate LeavesReceipt(kind: string, attempts: seq<Attempt>, files: map<string, File>) {
    var k := FirstFree(kind, attempts, files, 0);
    k < |attempts| && Shows(attempts[k])
  }

  predicate MovesLatest(kind: string, attempts: seq<Attempt>, files: map<string, File>) {
    var k := FirstFree(kind, attempts, files, 0);
    k < |attempts| && Points(attempts[k])
  }

  /** What `write_receipt` leaves behind, for every ending of its effects. */
  ghost predicate Writes(before: LedgerState, after: LedgerState, receipt: Receipt, attempts: seq<Attempt>) {
    Adds(before, after, receipt, NewName(receipt.kind, attempts, before.files),
         LeavesReceipt(receipt.kind, attempts, before.files), MovesLatest(receipt.kind, attempts, before.files))
  }

  /** A write that returns has shown its receipt and moved the link; one that has moved the link
      and raised has done so after the link was replaced. */
  lemma PublishingShows(kind: string, attempts: seq<Attempt>, files: map<string, File>)
    ensures CanPublish(kind, attempts, files) ==>
      LeavesReceipt(kind, attempts, files) && MovesLatest(kind, attempts, files)
    ensures MovesLatest(kind, attempts, files) ==> LeavesReceipt(kind, attempts, files)
  {
    if k: nat :| k < |attempts| && PublishedAt(kind, attempts, k, files) {
      FirstFreeIs(kind, attempts, files, 0, k);
    }
  }

  /** A write that shows its receipt still raises exactly if the rename, the directory sync or
      the link raises afterwards. */
  lemma ShownButRaised(kind: string, attempts: seq<Attempt>, files: map<string, File>)
    ensures var k := FirstFree(kind, attempts, files, 0);
      LeavesReceipt(kind, attempts, files) && !CanPublish(kind, attempts, files) <==>
        && k < |attempts| && attempts[k].temporary.Created? && attempts[k].sidecar.Created?
        && (attempts[k].rename.RaisedAfter?
            || (attempts[k].rename.Done? && (!attempts[k].synced || !attempts[k].latest.Done?)))
  {
    var k := FirstFree(kind, attempts, files, 0);
    if k < |attempts| && Publishes(attempts[k]) { assert PublishedAt(kind, attempts, k, files); }
    if j: nat :| j < |attempts| && PublishedAt(kind, attempts, j, files) {
      FirstFreeIs(kind, attempts, files, 0, j);
    }
  }
}
