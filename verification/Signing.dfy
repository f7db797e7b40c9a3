/** Signing a module artifact and verifying it.  An artifact is its wasm payload and the records
    of its trailer; hashing, Ed25519, the JSON of the signature payload and of the bundle
    statement are parameters with the laws they are used under. */
module Signing {
  import opened Options
  import opened Digest
  import opened Leb128
  import opened Sequences
  import opened WasmModule

  const SDS_PREFIX: Bytes := [0x73, 0x64, 0x73, 0x2e]
  const HASH_BYTES: nat := 32
  const SIGNATURE_BYTES: nat := 64

  // ----- artifacts ----------------------------------------------------------------------------------------

  datatype Role = ManifestRole | SignatureRole | OtherRole(code: nat)

  /** `id` may be missing; `meta` is the section name, type, encoding, flags and description. */
  datatype Entry = Entry(id: Option<Bytes>, role: Role, sdsSignature: bool, payload: Bytes, sha: Bytes, meta: Bytes)

  /** An entry as a bundle statement lists it: by its hash and length, without its payload. */
  datatype Stated = Stated(id: Bytes, role: Role, sdsSignature: bool, sha: Bytes, length: nat, meta: Bytes)

  datatype Statement = Statement(header: Header, moduleHash: Bytes, manifestHash: Bytes, entries: seq<Stated>)

  /** Versions, format, canonicalization and export symbols. */
  datatype Header = Header(prefix: Bytes, rest: Bytes)

  datatype Bundle = Bundle(header: Header, moduleHash: Bytes, manifestHash: Bytes, entries: seq<Entry>)

  /** `others` are the publication records that are carried along. */
  datatype Artifact = Artifact(payload: Bytes, bundle: Option<Bundle>, others: Bytes)

  datatype Algorithm = ModuleHash | BundleHash | UnknownHash

  datatype Domain = NoDomain | ModulePublication | OtherDomain

  datatype Signature = Signature(
    ed25519: bool,
    publicKey: Bytes,
    signature: Bytes,
    signedHash: Bytes,
    algorithm: Algorithm,
    domain: Domain)

  datatype Crypto = Crypto(
    sha: Bytes -> Bytes,
    publicKey: Bytes -> Bytes,
    sign: (Bytes, Bytes) -> Bytes,
    verify: (Bytes, Bytes, Bytes) -> bool,
    domainStatement: Bytes -> Bytes,
    bundleStatement: Statement -> Bytes,
    encode: Signature -> Bytes,
    decode: Bytes -> Option<Signature>,
    hashed: Bytes -> bool)

  ghost predicate Lawful(c: Crypto) {
    && (forall x: Bytes :: |c.sha(x)| == HASH_BYTES)
    && (forall seed: Bytes :: |c.publicKey(seed)| == HASH_BYTES)
    && (forall m: Bytes, seed: Bytes ::
          && |c.sign(m, seed)| == SIGNATURE_BYTES && !AllZero(c.sign(m, seed))
          && c.verify(m, c.sign(m, seed), c.publicKey(seed)))
    && (forall s: Signature :: c.decode(c.encode(s)) == Some(s))
  }

  /** No two of the byte strings that are hashed collide. */
  ghost predicate CollisionFree(c: Crypto) {
    forall x: Bytes, y: Bytes :: c.hashed(x) && c.hashed(y) && c.sha(x) == c.sha(y) ==> x == y
  }

  /** A statement's canonical JSON is that of no other statement. */
  ghost predicate StatementsDiffer(c: Crypto) {
    forall x: Statement, y: Statement :: c.bundleStatement(x) == c.bundleStatement(y) ==> x == y
  }

  predicate AllZero(x: Bytes) {
    forall i: nat :: i < |x| ==> x[i] == 0
  }

  datatype Result<T> = Ok(value: T) | Err(code: Code)

  datatype Code =
    | InvalidSeed | Malformed | MissingSignature | InvalidSignaturePayload | UnsupportedAlgorithm | InvalidSignature
    | InvalidPublicKey | AmbiguousScope | HashMismatch | UnsupportedDomain
    | UntrustedSigner | UnsupportedHash | InvalidBundle

  // ----- entries ------------------------------------------------------------------------------------------

  const MANIFEST_ID: Bytes := [0x6d, 0x61, 0x6e, 0x69, 0x66, 0x65, 0x73, 0x74]
  const SIGNATURE_ID: Bytes := [0x73, 0x69, 0x67, 0x6e, 0x61, 0x74, 0x75, 0x72, 0x65]
  const MANIFEST_SECTION: Bytes := SDS_PREFIX + MANIFEST_ID

  predicate IsSignature(e: Entry) {
    e.role.SignatureRole? || e.id == Some(SIGNATURE_ID) || e.sdsSignature
  }

  predicate IsManifest(e: Entry) {
    e.id == Some(MANIFEST_ID) || e.role.ManifestRole?
  }

  function FindSignature(es: seq<Entry>): Option<Entry> {
    if |es| == 0 then None else if IsSignature(es[0]) then Some(es[0]) else FindSignature(es[1..])
  }

  /** What a bundle signature covers. */
  function Unsigned(es: seq<Entry>): seq<Entry> {
    if |es| == 0 then [] else (if IsSignature(es[0]) then [] else [es[0]]) + Unsigned(es[1..])
  }

  function Preserved(es: seq<Entry>): seq<Entry> {
    if |es| == 0 then [] else (if IsSignature(es[0]) || IsManifest(es[0]) then [] else [es[0]]) + Preserved(es[1..])
  }

  /** The last manifest wins. */
  function LastManifest(es: seq<Entry>): Option<Bytes> {
    if |es| == 0 then None
    else if LastManifest(es[1..]).Some? then LastManifest(es[1..])
    else if !IsSignature(es[0]) && IsManifest(es[0]) then Some(es[0].payload)
    else None
  }

  function FirstManifest(es: seq<Entry>): Option<Entry> {
    if |es| == 0 then None else if IsManifest(es[0]) then Some(es[0]) else FirstManifest(es[1..])
  }

  function FirstCustom(xs: seq<Section>, name: Bytes): Option<Bytes> {
    if |xs| == 0 then None
    else if IsCustom(xs[0], name) then Some(CustomOf(xs[0].payload).value.data)
    else FirstCustom(xs[1..], name)
  }

  // ----- building a bundle -----------------------------------------------------------------------------------

  /** Hashes are recomputed.  A missing id stays missing: the numbered id a carried entry is
      given is overwritten by the entry's own empty one. */
  function Normalized(c: Crypto, es: seq<Entry>): (r: seq<Entry>)
    ensures |r| == |es| && forall i: nat :: i < |es| ==> r[i] == es[i].(sha := c.sha(es[i].payload))
  {
    seq(|es|, i requires 0 <= i < |es| => es[i].(sha := c.sha(es[i].payload)))
  }

  function ManifestEntries(c: Crypto, manifest: Option<Bytes>): seq<Entry> {
    match manifest
    case None => []
    case Some(m) => [Entry(Some(MANIFEST_ID), ManifestRole, false, m, c.sha(m), [])]
  }

  function SignatureEntries(c: Crypto, s: Option<Signature>): seq<Entry> {
    match s
    case None => []
    case Some(sig) => [Entry(Some(SIGNATURE_ID), SignatureRole, true, c.encode(sig), c.sha(c.encode(sig)), [])]
  }

  const DEFAULT_HEADER := Header(SDS_PREFIX, [])

  /** The artifact around the stripped module, with the entries given. */
  function CreateBundle(c: Crypto, a: Artifact, manifest: Option<Bytes>, s: Option<Signature>,
                        es: seq<Entry>): Result<Artifact> {
    match Canonical(a.payload, SDS_PREFIX)
    case None => Err(Malformed)
    case Some(base) =>
      var entries := ManifestEntries(c, manifest) + SignatureEntries(c, s) + Normalized(c, es);
      var manifestHash := if manifest.Some? then c.sha(manifest.value) else [];
      Ok(Artifact(base, Some(Bundle(DEFAULT_HEADER, c.sha(base), manifestHash, entries)), a.others))
  }

  // ----- the digest of a whole bundle ---------------------------------------------------------------------------

  /** The first objection to the covered entries, given the ids seen before them. */
  function EntryObjection(c: Crypto, es: seq<Entry>, seen: set<Bytes>): Option<Code> {
    if |es| == 0 then None
    else if es[0].id == None || es[0].id.value == [] then Some(InvalidBundle)
    else if es[0].id.value in seen then Some(InvalidBundle)
    else if c.sha(es[0].payload) != es[0].sha then Some(HashMismatch)
    else EntryObjection(c, es[1..], seen + {es[0].id.value})
  }

  /** The loop over the covered entries, with the set of ids seen so far. */
  method CheckEntries(c: Crypto, es: seq<Entry>) returns (r: Option<Code>)
    ensures r == EntryObjection(c, es, {})
  {
    var seen: set<Bytes> := {};
    assert es[0..] == es;
    for i := 0 to |es|
      invariant EntryObjection(c, es, {}) == EntryObjection(c, es[i..], seen)
    {
      assert es[i..][0] == es[i] && es[i..][1..] == es[i + 1..];
      var id := es[i].id;
      if id == None || id.value == [] {
        return Some(InvalidBundle);
      }
      if id.value in seen {
        return Some(InvalidBundle);
      }
      seen := seen + {id.value};
      if c.sha(es[i].payload) != es[i].sha {
        return Some(HashMismatch);
      }
    }
    return None;
  }

  predicate Identified(e: Entry) {
    e.id.Some? && e.id.value != []
  }

  /** Every entry has an id, and no two have the same. */
  ghost predicate GoodIds(es: seq<Entry>) {
    && (forall i: nat :: i < |es| ==> Identified(es[i]))
    && (forall i: nat, j: nat :: i < j < |es| ==> es[i].id != es[j].id)
  }

  ghost predicate GoodHashes(c: Crypto, es: seq<Entry>) {
    forall i: nat :: i < |es| ==> c.sha(es[i].payload) == es[i].sha
  }

  ghost predicate Unseen(es: seq<Entry>, seen: set<Bytes>) {
    forall i: nat :: i < |es| && es[i].id.Some? ==> es[i].id.value !in seen
  }

  /** The entries pass exactly when ids are there and differ, and hashes are right. */
  lemma {:induction false} EntriesPass(c: Crypto, es: seq<Entry>, seen: set<Bytes>)
    ensures EntryObjection(c, es, seen) == None <==> GoodIds(es) && GoodHashes(c, es) && Unseen(es, seen)
  {
    if |es| > 0 {
      var e, rest := es[0], es[1..];
      assert es == [e] + rest;
      if Identified(e) {
        EntriesPass(c, rest, seen + {e.id.value});
        PassCons(c, e, rest, seen);
      } else {
        assert !Identified(es[0]);
      }
    }
  }

  lemma PassCons(c: Crypto, e: Entry, rest: seq<Entry>, seen: set<Bytes>)
    requires Identified(e)
    ensures GoodIds([e] + rest) && GoodHashes(c, [e] + rest) && Unseen([e] + rest, seen) <==>
      && e.id.value !in seen && c.sha(e.payload) == e.sha
      && GoodIds(rest) && GoodHashes(c, rest) && Unseen(rest, seen + {e.id.value})
  {
    var es := [e] + rest;
    assert forall i: nat :: i < |rest| ==> es[i + 1] == rest[i];
    if GoodIds(es) && GoodHashes(c, es) && Unseen(es, seen) {
      assert Identified(es[0]) && c.sha(es[0].payload) == es[0].sha;
      forall i: nat | i < |rest|
        ensures Identified(rest[i]) && rest[i].id != e.id
        ensures c.sha(rest[i].payload) == rest[i].sha && rest[i].id.value !in seen
      {
        assert Identified(es[i + 1]) && es[0].id != es[i + 1].id && c.sha(es[i + 1].payload) == es[i + 1].sha;
      }
      forall i: nat, j: nat | i < j < |rest|
        ensures rest[i].id != rest[j].id
      {
        assert es[i + 1].id != es[j + 1].id;
      }
    }
  }

  /** Stable insertion by id, in byte order. */
  function InsertStated(xs: seq<Stated>, x: Stated): seq<Stated> {
    if |xs| == 0 || KeyLess(x.id, xs[0].id) then [x] + xs else [xs[0]] + InsertStated(xs[1..], x)
  }

  function SortStated(xs: seq<Stated>): seq<Stated> {
    if |xs| == 0 then [] else InsertStated(SortStated(xs[1..]), xs[0])
  }

  function StatedOf(e: Entry): Stated {
    Stated(if e.id.Some? then e.id.value else [], e.role, e.sdsSignature, e.sha, |e.payload|, e.meta)
  }

  function StatedAll(es: seq<Entry>): seq<Stated> {
    if |es| == 0 then [] else [StatedOf(es[0])] + StatedAll(es[1..])
  }

  function StatementOf(b: Bundle): Statement {
    Statement(b.header, b.moduleHash, b.manifestHash, SortStated(StatedAll(Unsigned(b.entries))))
  }

  predicate ManifestAgrees(c: Crypto, es: seq<Entry>, manifestHash: Bytes) {
    match FirstManifest(es)
    case None => manifestHash == []
    case Some(e) => c.sha(e.payload) == manifestHash
  }

  function BundleDigest(c: Crypto, b: Bundle, payload: Bytes): Result<Bytes> {
    var es := Unsigned(b.entries);
    var objection := EntryObjection(c, es, {});
    if objection.Some? then Err(objection.value)
    else if |b.moduleHash| != HASH_BYTES then Err(InvalidBundle)
    else
      match Canonical(payload, b.header.prefix)
      case None => Err(Malformed)
      case Some(base) =>
        if c.sha(base) != b.moduleHash then Err(HashMismatch)
        else if !ManifestAgrees(c, es, b.manifestHash) then Err(HashMismatch)
        else Ok(c.sha(c.bundleStatement(StatementOf(b))))
  }

  // ----- signing --------------------------------------------------------------------------------------------------

  datatype Scope = ModuleScope | BundleScope

  function Carried(a: Artifact): seq<Entry> {
    if a.bundle.Some? then Preserved(a.bundle.value.entries) else []
  }

  function ManifestOf(a: Artifact): Option<Bytes>
    requires ParseModule(a.payload).Some?
  {
    var kept := if a.bundle.Some? then LastManifest(a.bundle.value.entries) else None;
    if kept.Some? then kept else FirstCustom(ParseModule(a.payload).value, MANIFEST_SECTION)
  }

  /** The digest that is signed. */
  function SignedDigest(c: Crypto, a: Artifact, manifest: Option<Bytes>, scope: Scope): Result<Bytes>
    requires ParseModule(a.payload).Some?
  {
    match scope
    case ModuleScope => Ok(c.sha(Canonical(a.payload, SDS_PREFIX).value))
    case BundleScope =>
      match CreateBundle(c, a, manifest, None, Carried(a))
      case Err(e) => Err(e)
      case Ok(u) => BundleDigest(c, u.bundle.value, u.payload)
  }

  function SignatureOver(c: Crypto, digest: Bytes, seed: Bytes, scope: Scope): Signature {
    Signature(true, c.publicKey(seed), c.sign(digest, seed), digest,
              if scope.ModuleScope? then ModuleHash else BundleHash, NoDomain)
  }

  function Sign(c: Crypto, a: Artifact, seed: Bytes, scope: Scope): Result<Artifact> {
    if |seed| != 32 then Err(InvalidSeed)
    else if ParseModule(a.payload) == None then Err(Malformed)
    else
      match SignedDigest(c, a, ManifestOf(a), scope)
      case Err(e) => Err(e)
      case Ok(digest) => CreateBundle(c, a, ManifestOf(a), Some(SignatureOver(c, digest, seed, scope)), Carried(a))
  }

  // ----- verification -----------------------------------------------------------------------------------------------

  datatype Verified = NotSigned | Verified(publicKey: Bytes, scope: Scope, domain: Domain, signedHash: Bytes)

  /** The checks of the signature payload itself. */
  function CheckSignature(s: Signature): Option<Code> {
    if !s.ed25519 then Some(UnsupportedAlgorithm)
    else if |s.signature| != SIGNATURE_BYTES || AllZero(s.signature) then Some(InvalidSignature)
    else if |s.publicKey| != HASH_BYTES then Some(InvalidPublicKey)
    else if s.domain != NoDomain && s.algorithm == BundleHash then Some(AmbiguousScope)
    else None
  }

  /** A domain-separated statement over the hash of the whole payload. */
  function VerifyPublication(c: Crypto, a: Artifact, s: Signature, trusted: seq<Bytes>): Result<Verified> {
    var content := c.sha(a.payload);
    if s.signedHash != [] && s.signedHash != content then Err(HashMismatch)
    else if s.domain != ModulePublication then Err(UnsupportedDomain)
    else if s.publicKey !in trusted then Err(UntrustedSigner)
    else if !c.verify(c.domainStatement(content), s.signature, s.publicKey) then Err(InvalidSignature)
    else Ok(Verified(s.publicKey, ModuleScope, ModulePublication, content))
  }

  /** The digest a signature without a domain has to cover. */
  function CoveredDigest(c: Crypto, a: Artifact, b: Bundle, s: Signature): Result<Bytes> {
    match Canonical(a.payload, SDS_PREFIX)
    case None => Err(Malformed)
    case Some(base) =>
      if b.moduleHash != c.sha(base) then Err(HashMismatch)
      else
        match s.algorithm
        case ModuleHash => Ok(c.sha(base))
        case BundleHash => BundleDigest(c, b, a.payload)
        case UnknownHash => Err(UnsupportedHash)
  }

  function VerifyDigest(c: Crypto, a: Artifact, b: Bundle, s: Signature, trusted: seq<Bytes>): Result<Verified> {
    match CoveredDigest(c, a, b, s)
    case Err(e) => Err(e)
    case Ok(digest) =>
      if s.signedHash != digest then Err(HashMismatch)
      else if s.publicKey !in trusted then Err(UntrustedSigner)
      else if !c.verify(digest, s.signature, s.publicKey) then Err(InvalidSignature)
      else Ok(Verified(s.publicKey, if s.algorithm == BundleHash then BundleScope else ModuleScope, NoDomain, digest))
  }

  function Verify(c: Crypto, a: Artifact, trusted: seq<Bytes>, required: bool): Result<Verified> {
    var entry := if a.bundle.Some? then FindSignature(a.bundle.value.entries) else None;
    match entry
    case None => if required then Err(MissingSignature) else Ok(NotSigned)
    case Some(e) =>
      match c.decode(e.payload)
      case None => Err(InvalidSignaturePayload)
      case Some(s) =>
        if CheckSignature(s).Some? then Err(CheckSignature(s).value)
        else if s.domain != NoDomain then VerifyPublication(c, a, s, trusted)
        else VerifyDigest(c, a, a.bundle.value, s, trusted)
  }

  // ----- verification accepts what was signed ---------------------------------------------------------

  lemma {:induction false} PreservedAreUnsigned(es: seq<Entry>)
    ensures forall i: nat :: i < |Preserved(es)| ==> !IsSignature(Preserved(es)[i]) && !IsManifest(Preserved(es)[i])
  {
    hide IsSignature, IsManifest;
    if |es| > 0 {
      PreservedAreUnsigned(es[1..]);
    }
  }

  lemma {:induction false} UnsignedOfUnsigned(es: seq<Entry>)
    requires forall i: nat :: i < |es| ==> !IsSignature(es[i])
    ensures Unsigned(es) == es && FindSignature(es) == None
  {
    hide IsSignature;
    if |es| > 0 {
      UnsignedOfUnsigned(es[1..]);
      assert es == [es[0]] + es[1..];
    }
  }

  lemma {:induction false} UnsignedAppend(xs: seq<Entry>, ys: seq<Entry>)
    ensures Unsigned(xs + ys) == Unsigned(xs) + Unsigned(ys)
    ensures FindSignature(xs) == None ==> FindSignature(xs + ys) == FindSignature(ys)
    ensures FindSignature(xs).Some? ==> FindSignature(xs + ys) == FindSignature(xs)
  {
    hide IsSignature;
    if |xs| == 0 {
      assert xs + ys == ys;
    } else {
      assert (xs + ys)[1..] == xs[1..] + ys;
      UnsignedAppend(xs[1..], ys);
    }
  }

  lemma NormalizedAreUnsigned(c: Crypto, es: seq<Entry>)
    requires forall i: nat :: i < |es| ==> !IsSignature(es[i])
    ensures forall i: nat :: i < |es| ==> !IsSignature(Normalized(c, es)[i])
  {
  }

  /** The signature entry is found, and what the signature covers is as if it were not there. */
  lemma SignatureStandsAside(c: Crypto, manifest: Option<Bytes>, s: Signature, es: seq<Entry>)
    requires forall i: nat :: i < |es| ==> !IsSignature(es[i])
    ensures var m, n := ManifestEntries(c, manifest), Normalized(c, es);
      && Unsigned(m + SignatureEntries(c, Some(s)) + n) == Unsigned(m + SignatureEntries(c, None) + n)
      && FindSignature(m + SignatureEntries(c, Some(s)) + n) == Some(SignatureEntries(c, Some(s))[0])
  {
    var m, n, sig := ManifestEntries(c, manifest), Normalized(c, es), SignatureEntries(c, Some(s));
    NormalizedAreUnsigned(c, es);
    UnsignedOfUnsigned(m);
    UnsignedOfUnsigned(n);
    assert Unsigned(sig) == [] && FindSignature(sig) == Some(sig[0]) by {
      assert IsSignature(sig[0]); assert sig[1..] == [];
    }
    hide Unsigned, FindSignature, ManifestEntries, SignatureEntries, Normalized, IsSignature;
    UnsignedAppend(m, sig);
    UnsignedAppend(m + sig, n);
    assert SignatureEntries(c, None) == [] by { NoSignatureEntries(c); }
    UnsignedAppend(m, []);
    UnsignedAppend(m + [], n);
    assert m + [] == m;
  }

  lemma NoSignatureEntries(c: Crypto)
    ensures SignatureEntries(c, None) == [] && Unsigned([]) == []
  {
  }

  lemma CarriedAreUnsigned(a: Artifact)
    ensures forall i: nat :: i < |Carried(a)| ==> !IsSignature(Carried(a)[i])
  {
    hide IsSignature;
    if a.bundle.Some? {
      PreservedAreUnsigned(a.bundle.value.entries);
    }
  }

  /** The payload of a bundle is its own canonical form. */
  lemma BundledIsCanonical(c: Crypto, a: Artifact, manifest: Option<Bytes>, s: Option<Signature>, es: seq<Entry>)
    requires ParseModule(a.payload).Some?
    ensures var r := CreateBundle(c, a, manifest, s, es);
      && r.Ok? && r.value.bundle.Some? && r.value.payload == Canonical(a.payload, SDS_PREFIX).value
      && Canonical(r.value.payload, SDS_PREFIX) == Some(r.value.payload)
      && r.value.bundle.value.moduleHash == c.sha(r.value.payload)
  {
    StripIsIdempotent(a.payload, SDS_PREFIX);
    hide ParseModule, Kept, Emit, ManifestEntries, SignatureEntries, Normalized;
  }

  /** The digest that is signed is the digest that is covered. */
  lemma DigestsAgree(c: Crypto, a: Artifact, s: Signature, scope: Scope)
    requires ParseModule(a.payload).Some? && SignedDigest(c, a, ManifestOf(a), scope).Ok?
    requires s.algorithm == if scope.ModuleScope? then ModuleHash else BundleHash
    ensures var r := CreateBundle(c, a, ManifestOf(a), Some(s), Carried(a));
      && r.Ok? && r.value.bundle.Some?
      && CoveredDigest(c, r.value, r.value.bundle.value, s) == SignedDigest(c, a, ManifestOf(a), scope)
      && FindSignature(r.value.bundle.value.entries) == Some(SignatureEntries(c, Some(s))[0])
  {
    var m, es := ManifestOf(a), Carried(a);
    CarriedAreUnsigned(a);
    BundledIsCanonical(c, a, m, Some(s), es);
    BundledIsCanonical(c, a, m, None, es);
    SignatureStandsAside(c, m, s, es);
    hide ParseModule, Canonical, Carried, ManifestOf, Unsigned, FindSignature, ManifestEntries;
    hide SignatureEntries, Normalized, EntryObjection, ManifestAgrees, IsSignature, SortStated, StatedAll;
  }

  /** Whatever was signed, in either scope, verifies for everyone who trusts the signer. */
  lemma SignedVerifies(c: Crypto, a: Artifact, seed: Bytes, scope: Scope, trusted: seq<Bytes>, required: bool)
    requires Lawful(c) && Sign(c, a, seed, scope).Ok? && c.publicKey(seed) in trusted
    ensures var v := Verify(c, Sign(c, a, seed, scope).value, trusted, required);
      v == Ok(Verified(c.publicKey(seed), scope, NoDomain, SignedDigest(c, a, ManifestOf(a), scope).value))
  {
    hide ParseModule, SignedDigest, ManifestOf, Carried, CreateBundle, CoveredDigest, FindSignature, AllZero;
    var digest := SignedDigest(c, a, ManifestOf(a), scope).value;
    var s := SignatureOver(c, digest, seed, scope);
    DigestsAgree(c, a, s, scope);
    assert c.verify(digest, c.sign(digest, seed), c.publicKey(seed));
  }

  // ----- when signing succeeds ------------------------------------------------------------------------

  /** What a bundle signature of this artifact covers. */
  function Covered(c: Crypto, a: Artifact): seq<Entry>
    requires ParseModule(a.payload).Some?
  {
    ManifestEntries(c, ManifestOf(a)) + Normalized(c, Carried(a))
  }

  lemma CarriedAreNoManifests(a: Artifact)
    ensures forall i: nat :: i < |Carried(a)| ==> !IsManifest(Carried(a)[i])
  {
    hide IsManifest, IsSignature;
    if a.bundle.Some? {
      PreservedAreUnsigned(a.bundle.value.entries);
    }
  }

  lemma SameIdsSameGood(n: seq<Entry>, xs: seq<Entry>)
    requires |n| == |xs| && forall i: nat :: i < |xs| ==> n[i].id == xs[i].id
    ensures GoodIds(n) <==> GoodIds(xs)
  {
    assert forall i: nat :: i < |xs| ==> (Identified(n[i]) <==> Identified(xs[i]));
  }

  lemma OneMoreId(e: Entry, n: seq<Entry>)
    requires Identified(e) && forall i: nat :: i < |n| ==> n[i].id != e.id
    ensures GoodIds([e] + n) <==> GoodIds(n)
  {
    var es := [e] + n;
    assert forall i: nat :: i < |n| ==> es[i + 1] == n[i];
    if GoodIds(es) {
      forall i: nat | i < |n|
        ensures Identified(n[i])
      {
        assert Identified(es[i + 1]);
      }
      forall i: nat, j: nat | i < j < |n|
        ensures n[i].id != n[j].id
      {
        assert es[i + 1].id != es[j + 1].id;
      }
    }
  }

  lemma CoveredPasses(c: Crypto, a: Artifact)
    requires ParseModule(a.payload).Some?
    ensures EntryObjection(c, Covered(c, a), {}) == None <==> GoodIds(Carried(a))
  {
    hide ParseModule, ManifestOf, Carried, GoodIds, EntryObjection;
    var es, xs := Covered(c, a), Carried(a);
    CarriedAreNoManifests(a);
    EntriesPass(c, es, {});
    assert GoodHashes(c, es) && Unseen(es, {});
    var m, n := ManifestEntries(c, ManifestOf(a)), Normalized(c, xs);
    forall i: nat | i < |xs|
      ensures n[i].id == xs[i].id && xs[i].id != Some(MANIFEST_ID)
    {
      assert !IsManifest(xs[i]);
    }
    SameIdsSameGood(n, xs);
    if m == [] {
      assert m + n == n;
    } else {
      OneMoreId(m[0], n);
    }
  }

  lemma {:induction false} NoManifestIn(es: seq<Entry>)
    requires forall i: nat :: i < |es| ==> !IsManifest(es[i])
    ensures FirstManifest(es) == None
  {
    hide IsManifest;
    if |es| > 0 {
      NoManifestIn(es[1..]);
    }
  }

  lemma CoveredManifestAgrees(c: Crypto, a: Artifact)
    requires ParseModule(a.payload).Some?
    ensures ManifestAgrees(c, Covered(c, a), if ManifestOf(a).Some? then c.sha(ManifestOf(a).value) else [])
  {
    hide ParseModule, ManifestOf, Carried;
    CarriedAreNoManifests(a);
    var n := Normalized(c, Carried(a));
    assert forall i: nat :: i < |n| ==> !IsManifest(n[i]);
    hide Normalized;
    if ManifestOf(a) == None {
      assert Covered(c, a) == n;
      NoManifestIn(n);
    }
  }

  lemma UnsignedBundleCovers(c: Crypto, a: Artifact)
    requires ParseModule(a.payload).Some?
    ensures var u := CreateBundle(c, a, ManifestOf(a), None, Carried(a));
      u.Ok? && u.value.bundle.Some? && Unsigned(u.value.bundle.value.entries) == Covered(c, a)
  {
    CarriedAreUnsigned(a);
    NormalizedAreUnsigned(c, Carried(a));
    hide ParseModule, ManifestOf, Carried, Normalized;
    var m, n := ManifestEntries(c, ManifestOf(a)), Normalized(c, Carried(a));
    assert forall i: nat :: i < |m| ==> !IsSignature(m[i]);
    NoSignatureEntries(c);
    hide SignatureEntries, ManifestEntries;
    assert m + [] + n == Covered(c, a);
    UnsignedOfUnsigned(Covered(c, a));
  }

  /** Signing succeeds on every module with a 32-byte seed; in bundle scope, exactly when the
      entries that are carried along have ids of their own, all different. */
  lemma SignsExactly(c: Crypto, a: Artifact, seed: Bytes, scope: Scope)
    requires Lawful(c)
    ensures Sign(c, a, seed, scope).Ok? <==>
      |seed| == 32 && ParseModule(a.payload).Some? && (scope.BundleScope? ==> GoodIds(Carried(a)))
  {
    hide ParseModule, GoodIds;
    if |seed| == 32 && ParseModule(a.payload).Some? {
      UnsignedBundleCovers(c, a);
      CoveredPasses(c, a);
      CoveredManifestAgrees(c, a);
      BundledIsCanonical(c, a, ManifestOf(a), None, Carried(a));
      hide ManifestOf, Carried, Covered, EntryObjection, ManifestAgrees, Unsigned, ManifestEntries;
      hide SignatureEntries, Normalized, Canonical;
    }
  }

  /** An entry without an id can be carried along under a module signature, but no bundle
      signature covers it. */
  lemma MissingIdIsRefused(c: Crypto, payload: Bytes, header: Header, others: Bytes, e: Entry, seed: Bytes)
    requires Lawful(c) && |seed| == 32 && ParseModule(payload).Some?
    requires e.id == None && e.role == OtherRole(5) && !e.sdsSignature
    ensures var a := Artifact(payload, Some(Bundle(header, [], [], [e])), others);
      Sign(c, a, seed, ModuleScope).Ok? && Sign(c, a, seed, BundleScope) == Err(InvalidBundle)
  {
    var a := Artifact(payload, Some(Bundle(header, [], [], [e])), others);
    SignsExactly(c, a, seed, ModuleScope);
    UnsignedBundleCovers(c, a);
    assert Preserved([e]) == [e] + Preserved([e][1..]);
    assert Carried(a) == [e];
    var es := Covered(c, a);
    hide ParseModule, ManifestOf, Preserved;
    assert EntryObjection(c, es, {}) == Some(InvalidBundle) by { UnidentifiedObjected(c, ManifestOf(a), e); }
    hide EntryObjection, Unsigned, Canonical;
    BundledIsCanonical(c, a, ManifestOf(a), None, Carried(a));
  }

  lemma UnidentifiedObjected(c: Crypto, manifest: Option<Bytes>, e: Entry)
    requires e.id == None
    ensures EntryObjection(c, ManifestEntries(c, manifest) + Normalized(c, [e]), {}) == Some(InvalidBundle)
  {
    var m, n := ManifestEntries(c, manifest), Normalized(c, [e]);
    assert n == [e.(sha := c.sha(e.payload))];
    if manifest.Some? {
      assert (m + n)[1..] == n;
      assert EntryObjection(c, n, {} + {MANIFEST_ID}) == Some(InvalidBundle);
    } else {
      assert m + n == n;
    }
  }

  // ----- what a signature binds -----------------------------------------------------------------------

  /** The signature payload an artifact carries. */
  function SignatureOf(c: Crypto, a: Artifact): Option<Signature> {
    if a.bundle == None || FindSignature(a.bundle.value.entries) == None then None
    else c.decode(FindSignature(a.bundle.value.entries).value.payload)
  }

  /** Everything verification hashes of an artifact is among what does not collide. */
  ghost predicate Hashes(c: Crypto, a: Artifact) {
    && c.hashed(a.payload)
    && (Canonical(a.payload, SDS_PREFIX).Some? ==> c.hashed(Canonical(a.payload, SDS_PREFIX).value))
    && (a.bundle.Some? ==>
          && c.hashed(c.bundleStatement(StatementOf(a.bundle.value)))
          && forall e :: e in Unsigned(a.bundle.value.entries) ==> c.hashed(e.payload))
  }

  /** Verified by a digest, with the signature the artifact carries. */
  lemma VerifiedDigest(c: Crypto, a: Artifact, trusted: seq<Bytes>, required: bool, s: Signature)
    requires SignatureOf(c, a) == Some(s) && s.domain == NoDomain && Verify(c, a, trusted, required).Ok?
    ensures a.bundle.Some? && CoveredDigest(c, a, a.bundle.value, s) == Ok(s.signedHash)
    ensures Canonical(a.payload, SDS_PREFIX).Some?
    ensures a.bundle.value.moduleHash == c.sha(Canonical(a.payload, SDS_PREFIX).value)
  {
    hide Canonical, BundleDigest, FindSignature, AllZero;
  }

  /** Two artifacts that verify with one signature, in either scope, hold the same module: the
      same canonical bytes. */
  lemma SignatureBindsModule(c: Crypto, a: Artifact, b: Artifact, s: Signature, trusted: seq<Bytes>, required: bool)
    requires CollisionFree(c) && StatementsDiffer(c) && Hashes(c, a) && Hashes(c, b)
    requires SignatureOf(c, a) == Some(s) == SignatureOf(c, b) && s.domain == NoDomain
    requires Verify(c, a, trusted, required).Ok? && Verify(c, b, trusted, required).Ok?
    ensures Canonical(a.payload, SDS_PREFIX).Some?
    ensures Canonical(a.payload, SDS_PREFIX) == Canonical(b.payload, SDS_PREFIX)
  {
    VerifiedDigest(c, a, trusted, required, s);
    VerifiedDigest(c, b, trusted, required, s);
    if s.algorithm == BundleHash {
      StatementsAgree(c, a, b, s);
    }
    hide Canonical, SignatureOf, Verify, StatementOf, BundleDigest;
  }

  lemma StatementsAgree(c: Crypto, a: Artifact, b: Artifact, s: Signature)
    requires CollisionFree(c) && StatementsDiffer(c) && Hashes(c, a) && Hashes(c, b) && s.algorithm == BundleHash
    requires a.bundle.Some? && b.bundle.Some?
    requires CoveredDigest(c, a, a.bundle.value, s) == Ok(s.signedHash) == CoveredDigest(c, b, b.bundle.value, s)
    ensures StatementOf(a.bundle.value) == StatementOf(b.bundle.value)
    ensures EntryObjection(c, Unsigned(a.bundle.value.entries), {}) == None
    ensures EntryObjection(c, Unsigned(b.bundle.value.entries), {}) == None
  {
    hide Canonical, StatementOf, EntryObjection, Unsigned, ManifestAgrees;
  }

  lemma {:induction false} InsertStatedBag(xs: seq<Stated>, x: Stated)
    ensures multiset(InsertStated(xs, x)) == multiset(xs) + multiset{x}
  {
    hide KeyLess;
    if |xs| > 0 && !KeyLess(x.id, xs[0].id) {
      InsertStatedBag(xs[1..], x);
      assert xs == [xs[0]] + xs[1..];
    }
  }

  lemma {:induction false} SortStatedBag(xs: seq<Stated>)
    ensures multiset(SortStated(xs)) == multiset(xs)
  {
    if |xs| > 0 {
      SortStatedBag(xs[1..]);
      InsertStatedBag(SortStated(xs[1..]), xs[0]);
      assert xs == [xs[0]] + xs[1..];
    }
  }

  lemma {:induction false} StatedFrom(es: seq<Entry>, x: Stated) returns (i: nat)
    requires x in StatedAll(es)
    ensures i < |es| && StatedOf(es[i]) == x
  {
    hide StatedOf;
    if x == StatedOf(es[0]) {
      i := 0;
    } else {
      assert x in StatedAll(es[1..]);
      var j := StatedFrom(es[1..], x);
      i := j + 1;
    }
  }

  lemma {:induction false} StatedAt(es: seq<Entry>, i: nat)
    requires i < |es|
    ensures StatedOf(es[i]) in StatedAll(es)
  {
    hide StatedOf;
    if i > 0 {
      StatedAt(es[1..], i - 1);
    }
  }

  /** A stated entry has one entry behind it: its hash decides its payload. */
  lemma StatedDecides(c: Crypto, d: Entry, e: Entry)
    requires CollisionFree(c) && c.hashed(d.payload) && c.hashed(e.payload) && Identified(d) && Identified(e)
    requires c.sha(d.payload) == d.sha && c.sha(e.payload) == e.sha && StatedOf(d) == StatedOf(e)
    ensures d == e
  {
  }

  ghost predicate AllHashed(c: Crypto, es: seq<Entry>) {
    forall e :: e in es ==> c.hashed(e.payload)
  }

  lemma CoveredIsIn(c: Crypto, xs: seq<Entry>, ys: seq<Entry>, e: Entry)
    requires CollisionFree(c) && AllHashed(c, xs) && AllHashed(c, ys) && e in xs
    requires EntryObjection(c, xs, {}) == None && EntryObjection(c, ys, {}) == None
    requires multiset(StatedAll(xs)) == multiset(StatedAll(ys))
    ensures e in ys
  {
    hide EntryObjection, StatedAll, StatedOf;
    EntriesPass(c, xs, {});
    EntriesPass(c, ys, {});
    var i: nat :| i < |xs| && xs[i] == e;
    StatedAt(xs, i);
    assert StatedOf(e) in multiset(StatedAll(ys));
    var j := StatedFrom(ys, StatedOf(e));
    assert Identified(xs[i]) && Identified(ys[j]);
    StatedDecides(c, e, ys[j]);
  }

  /** Two artifacts that verify with one bundle signature have the same header, the same
      manifest hash and the same covered entries, payloads and all, up to order. */
  lemma SignatureBindsBundle(c: Crypto, a: Artifact, b: Artifact, s: Signature, trusted: seq<Bytes>, required: bool)
    requires CollisionFree(c) && StatementsDiffer(c) && Hashes(c, a) && Hashes(c, b)
    requires SignatureOf(c, a) == Some(s) == SignatureOf(c, b) && s.domain == NoDomain && s.algorithm == BundleHash
    requires Verify(c, a, trusted, required).Ok? && Verify(c, b, trusted, required).Ok?
    ensures a.bundle.Some? && b.bundle.Some?
    ensures a.bundle.value.header == b.bundle.value.header && a.bundle.value.moduleHash == b.bundle.value.moduleHash
    ensures a.bundle.value.manifestHash == b.bundle.value.manifestHash
    ensures SameElements(Unsigned(a.bundle.value.entries), Unsigned(b.bundle.value.entries))
    ensures |Unsigned(a.bundle.value.entries)| == |Unsigned(b.bundle.value.entries)|
  {
    VerifiedDigest(c, a, trusted, required, s);
    VerifiedDigest(c, b, trusted, required, s);
    StatementsAgree(c, a, b, s);
    var xs, ys := Unsigned(a.bundle.value.entries), Unsigned(b.bundle.value.entries);
    SortStatedBag(StatedAll(xs));
    SortStatedBag(StatedAll(ys));
    assert AllHashed(c, xs) && AllHashed(c, ys);
    hide Canonical, SignatureOf, Verify, BundleDigest, SortStated, StatedAll, EntryObjection, Unsigned, Hashes;
    hide CoveredDigest, AllHashed;
    SameCovered(c, xs, ys);
  }

  lemma SameCovered(c: Crypto, xs: seq<Entry>, ys: seq<Entry>)
    requires CollisionFree(c) && AllHashed(c, xs) && AllHashed(c, ys)
    requires EntryObjection(c, xs, {}) == None && EntryObjection(c, ys, {}) == None
    requires multiset(StatedAll(xs)) == multiset(StatedAll(ys))
    ensures SameElements(xs, ys) && |xs| == |ys|
  {
    hide StatedAll, EntryObjection, AllHashed, CollisionFree;
    StatedCount(xs);
    StatedCount(ys);
    assert |StatedAll(xs)| == |multiset(StatedAll(xs))| == |multiset(StatedAll(ys))| == |StatedAll(ys)|;
    forall e: Entry
      ensures e in xs <==> e in ys
    {
      if e in xs {
        CoveredIsIn(c, xs, ys, e);
      }
      if e in ys {
        CoveredIsIn(c, ys, xs, e);
      }
    }
  }

  lemma {:induction false} StatedCount(es: seq<Entry>)
    ensures |StatedAll(es)| == |es|
  {
    if |es| > 0 {
      StatedCount(es[1..]);
    }
  }

  /** Two artifacts that verify with one publication signature that declares its hash have the
      same payload. */
  lemma PublicationBindsPayload(c: Crypto, a: Artifact, b: Artifact, s: Signature, trusted: seq<Bytes>, required: bool)
    requires CollisionFree(c) && Hashes(c, a) && Hashes(c, b) && s.signedHash != []
    requires SignatureOf(c, a) == Some(s) == SignatureOf(c, b) && s.domain != NoDomain
    requires Verify(c, a, trusted, required).Ok? && Verify(c, b, trusted, required).Ok?
    ensures a.payload == b.payload
  {
    hide Canonical, FindSignature, AllZero, StatementOf, Unsigned;
    assert c.sha(a.payload) == s.signedHash == c.sha(b.payload);
  }

  // ----- the order of entries plays no part -----------------------------------------------------------

  /** The ids of stated entries, as keys with nothing behind them. */
  function Ids(xs: seq<Stated>): (r: seq<Pair>)
    ensures |r| == |xs| && forall i: nat :: i < |xs| ==> r[i] == Pair(xs[i].id, [])
  {
    seq(|xs|, i requires 0 <= i < |xs| => Pair(xs[i].id, []))
  }

  lemma {:induction false} InsertedIds(xs: seq<Stated>, x: Stated)
    ensures Ids(InsertStated(xs, x)) == InsertPair(Ids(xs), Pair(x.id, []))
  {
    hide KeyLess;
    if |xs| > 0 && !KeyLess(x.id, xs[0].id) {
      InsertedIds(xs[1..], x);
      assert Ids(xs)[1..] == Ids(xs[1..]);
    }
  }

  lemma {:induction false} SortedIds(xs: seq<Stated>)
    ensures Ids(SortStated(xs)) == SortPairs(Ids(xs))
  {
    if |xs| > 0 {
      SortedIds(xs[1..]);
      InsertedIds(SortStated(xs[1..]), xs[0]);
      assert Ids(xs)[1..] == Ids(xs[1..]);
    }
  }

  ghost predicate DistinctIds(xs: seq<Stated>) {
    forall i: nat, j: nat :: i < j < |xs| ==> xs[i].id != xs[j].id
  }

  lemma IdsFollow(xs: seq<Stated>, ys: seq<Stated>, p: Pair)
    requires multiset(xs) == multiset(ys) && p in Ids(xs)
    ensures p in Ids(ys)
  {
    var i: nat :| i < |xs| && Ids(xs)[i] == p;
    assert xs[i] in multiset(ys);
    var j: nat :| j < |ys| && ys[j] == xs[i];
    assert Ids(ys)[j] == p;
  }

  lemma SameIds(xs: seq<Stated>, ys: seq<Stated>)
    requires multiset(xs) == multiset(ys)
    ensures SameElements(Ids(xs), Ids(ys))
  {
    hide Ids;
    forall p: Pair
      ensures p in Ids(xs) <==> p in Ids(ys)
    {
      if p in Ids(xs) {
        IdsFollow(xs, ys, p);
      }
      if p in Ids(ys) {
        IdsFollow(ys, xs, p);
      }
    }
  }

  lemma SameIdSameStated(xs: seq<Stated>, x: Stated, y: Stated)
    requires DistinctIds(xs) && x in xs && y in xs && x.id == y.id
    ensures x == y
  {
  }

  /** Lists of the same stated entries with different ids are sorted into one list. */
  lemma SortIgnoresOrder(xs: seq<Stated>, ys: seq<Stated>)
    requires multiset(xs) == multiset(ys) && DistinctIds(xs) && DistinctIds(ys)
    ensures SortStated(xs) == SortStated(ys)
  {
    var ss, ts := SortStated(xs), SortStated(ys);
    SortedIds(xs);
    SortedIds(ys);
    SortPairsSorts(Ids(xs));
    SortPairsSorts(Ids(ys));
    SortStatedBag(xs);
    SortStatedBag(ys);
    hide SortStated, SortPairs, Ascending, DistinctIds;
    SameIds(ss, ts);
    AscendingIsUnique(Ids(ss), Ids(ts));
    forall i: nat | i < |ss|
      ensures ss[i] == ts[i]
    {
      assert Ids(ss)[i] == Ids(ts)[i];
      assert ss[i] in multiset(xs) && ts[i] in multiset(xs);
      SameIdSameStated(xs, ss[i], ts[i]);
    }
  }

  lemma {:induction false} StatedBag(es: seq<Entry>, ds: seq<Entry>)
    requires multiset(es) == multiset(ds)
    ensures multiset(StatedAll(es)) == multiset(StatedAll(ds))
    decreases |es|
  {
    hide StatedOf;
    assert |es| == |multiset(es)| == |multiset(ds)| == |ds|;
    if |es| > 0 {
      assert es[0] in multiset(ds);
      var k: nat :| k < |ds| && ds[k] == es[0];
      RemoveBag(es, ds, k);
      StatedBag(es[1..], ds[..k] + ds[k + 1..]);
      StatedMiddle(ds, k);
      var x, rest := StatedOf(es[0]), StatedAll(es[1..]);
      assert StatedAll(es) == [x] + rest;
      MiddleBag([], x, rest);
      assert [] + ([x] + rest) == [x] + rest && [] + rest == rest;
    }
  }

  lemma StatedMiddle(ds: seq<Entry>, k: nat)
    requires k < |ds|
    ensures multiset(StatedAll(ds)) == multiset(StatedAll(ds[..k] + ds[k + 1..])) + multiset{StatedOf(ds[k])}
  {
    hide StatedOf;
    var p, q, tail := ds[..k], ds[k + 1..], [ds[k]] + ds[k + 1..];
    assert ds == p + tail && tail[1..] == q;
    StatedAppend(p, tail);
    StatedAppend(p, q);
    MiddleBag(StatedAll(p), StatedOf(ds[k]), StatedAll(q));
  }

  lemma {:induction false} StatedAppend(xs: seq<Entry>, ys: seq<Entry>)
    ensures StatedAll(xs + ys) == StatedAll(xs) + StatedAll(ys)
  {
    hide StatedOf;
    if |xs| == 0 {
      assert xs + ys == ys;
    } else {
      assert (xs + ys)[1..] == xs[1..] + ys;
      StatedAppend(xs[1..], ys);
    }
  }

  lemma {:induction false} StatedIndex(es: seq<Entry>, i: nat)
    requires i < |es|
    ensures |StatedAll(es)| == |es| && StatedAll(es)[i] == StatedOf(es[i])
  {
    StatedCount(es);
    if i > 0 {
      StatedIndex(es[1..], i - 1);
    }
  }

  lemma StatedIdsDiffer(es: seq<Entry>)
    requires GoodIds(es)
    ensures DistinctIds(StatedAll(es))
  {
    hide StatedAll;
    StatedCount(es);
    forall i: nat, j: nat | i < j < |es|
      ensures StatedAll(es)[i].id != StatedAll(es)[j].id
    {
      StatedIndex(es, i);
      StatedIndex(es, j);
      assert Identified(es[i]) && Identified(es[j]);
    }
  }

  /** Bundles that differ only in the order of their covered entries have the same statement. */
  lemma StatementIgnoresOrder(a: Bundle, b: Bundle)
    requires a.header == b.header && a.moduleHash == b.moduleHash && a.manifestHash == b.manifestHash
    requires multiset(Unsigned(a.entries)) == multiset(Unsigned(b.entries))
    requires GoodIds(Unsigned(a.entries)) && GoodIds(Unsigned(b.entries))
    ensures StatementOf(a) == StatementOf(b)
  {
    hide Unsigned, GoodIds, SortStated, StatedAll;
    StatedBag(Unsigned(a.entries), Unsigned(b.entries));
    StatedIdsDiffer(Unsigned(a.entries));
    StatedIdsDiffer(Unsigned(b.entries));
    SortIgnoresOrder(StatedAll(Unsigned(a.entries)), StatedAll(Unsigned(b.entries)));
  }
}
