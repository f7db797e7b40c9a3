/** What an accepted signature says about its signer, and what a signed artifact keeps of the one that
    was signed. */
module SignatureTrust {
  import opened Options
  import opened Leb128
  import opened WasmModule
  import opened Signing

  // ----- acceptance -----------------------------------------------------------------------------------

  /** A signature entry, by its role, its id or its section name. */
  ghost predicate MarkedSignature(e: Entry) {
    e.role == SignatureRole || e.id == Some([0x73, 0x69, 0x67, 0x6e, 0x61, 0x74, 0x75, 0x72, 0x65]) || e.sdsSignature
  }

  ghost predicate FirstSignatureAt(es: seq<Entry>, i: nat) {
    i < |es| && MarkedSignature(es[i]) && forall j: nat :: j < i ==> !MarkedSignature(es[j])
  }

  /** The artifact's first signature entry reads as `s`. */
  ghost predicate Carries(c: Crypto, a: Artifact, s: Signature) {
    && a.bundle.Some?
    && exists i: nat ::
         FirstSignatureAt(a.bundle.value.entries, i) && c.decode(a.bundle.value.entries[i].payload) == Some(s)
  }

  /** An Ed25519 signature of 64 bytes, not all zero, under a key of 32. */
  ghost predicate WellShaped(s: Signature) {
    && s.ed25519 && |s.signature| == 64 && |s.publicKey| == 32
    && exists i: nat :: i < |s.signature| && s.signature[i] != 0
  }

  /** The signature covers the publication statement of the whole payload. */
  ghost predicate CoversPublication(c: Crypto, a: Artifact, s: Signature, v: Verified)
    requires v.Verified?
  {
    && s.domain == ModulePublication == v.domain && s.algorithm != BundleHash && v.scope == ModuleScope
    && v.signedHash == c.sha(a.payload) && (s.signedHash == [] || s.signedHash == v.signedHash)
    && c.verify(c.domainStatement(v.signedHash), s.signature, s.publicKey)
  }

  /** The signature covers the digest of the canonical module, which is the recorded one, or of the
      whole bundle. */
  ghost predicate CoversDigest(c: Crypto, a: Artifact, s: Signature, v: Verified)
    requires v.Verified? && a.bundle.Some?
  {
    var base := Canonical(a.payload, SDS_PREFIX);
    && s.domain == NoDomain == v.domain && s.signedHash == v.signedHash
    && base.Some? && a.bundle.value.moduleHash == c.sha(base.value)
    && (|| (s.algorithm == ModuleHash && v.scope == ModuleScope && v.signedHash == c.sha(base.value))
        || (s.algorithm == BundleHash && v.scope == BundleScope
            && BundleDigest(c, a.bundle.value, a.payload) == Ok(v.signedHash)))
    && c.verify(v.signedHash, s.signature, s.publicKey)
  }

  ghost predicate Attests(c: Crypto, a: Artifact, trusted: seq<Bytes>, s: Signature, v: Verified)
    requires v.Verified?
  {
    && Carries(c, a, s) && WellShaped(s)
    && s.publicKey == v.publicKey && v.publicKey in trusted
    && (CoversPublication(c, a, s, v) || CoversDigest(c, a, s, v))
  }

  lemma {:induction false} FindSignatureFinds(es: seq<Entry>)
    ensures FindSignature(es) == None <==> forall i: nat :: i < |es| ==> !MarkedSignature(es[i])
    ensures forall i: nat :: FirstSignatureAt(es, i) ==> FindSignature(es) == Some(es[i])
    ensures FindSignature(es).Some? ==> exists i: nat :: FirstSignatureAt(es, i)
  {
    if |es| > 0 {
      var rest := es[1..];
      FindSignatureFinds(rest);
      assert IsSignature(es[0]) <==> MarkedSignature(es[0]);
      hide MarkedSignature, IsSignature;
      if MarkedSignature(es[0]) {
        assert FirstSignatureAt(es, 0);
      } else {
        assert forall i: nat :: i < |rest| ==> rest[i] == es[i + 1];
        forall i: nat | FirstSignatureAt(es, i)
          ensures i > 0 && FirstSignatureAt(rest, i - 1)
        {
        }
        if i: nat :| FirstSignatureAt(rest, i) {
          assert FirstSignatureAt(es, i + 1);
        }
      }
    }
  }

  lemma CarriesIs(c: Crypto, a: Artifact, s: Signature)
    ensures Carries(c, a, s) <==> SignatureOf(c, a) == Some(s)
  {
    hide FirstSignatureAt, FindSignature;
    if a.bundle.Some? {
      FindSignatureFinds(a.bundle.value.entries);
    }
  }

  lemma ShapeIs(s: Signature)
    ensures CheckSignature(s) == None <==> WellShaped(s) && !(s.domain != NoDomain && s.algorithm == BundleHash)
  {
  }

  lemma VerifyBySignature(c: Crypto, a: Artifact, trusted: seq<Bytes>, required: bool, v: Verified)
    requires v.Verified?
    ensures Verify(c, a, trusted, required) == Ok(v) <==>
      && SignatureOf(c, a).Some? && a.bundle.Some? && CheckSignature(SignatureOf(c, a).value) == None
      && var s := SignatureOf(c, a).value;
        (if s.domain != NoDomain then VerifyPublication(c, a, s, trusted)
         else VerifyDigest(c, a, a.bundle.value, s, trusted)) == Ok(v)
  {
    hide FindSignature, CheckSignature, VerifyPublication, VerifyDigest;
  }

  /** Verification accepts an artifact if and only if its first signature entry holds a well-shaped
      signature by a trusted key that is valid over the reported hash, and that hash is the one of
      what it claims to cover. */
  lemma VerifiedExactly(c: Crypto, a: Artifact, trusted: seq<Bytes>, required: bool, v: Verified)
    requires v.Verified?
    ensures Verify(c, a, trusted, required) == Ok(v) <==> exists s: Signature :: Attests(c, a, trusted, s, v)
  {
    VerifyBySignature(c, a, trusted, required, v);
    hide Verify, Carries, WellShaped, CheckSignature, SignatureOf, BundleDigest, Canonical;
    if SignatureOf(c, a).Some? {
      var s := SignatureOf(c, a).value;
      CarriesIs(c, a, s);
      ShapeIs(s);
    }
    forall s: Signature | Attests(c, a, trusted, s, v)
      ensures Verify(c, a, trusted, required) == Ok(v)
    {
      CarriesIs(c, a, s);
      ShapeIs(s);
    }
    if Verify(c, a, trusted, required) == Ok(v) {
      assert Attests(c, a, trusted, SignatureOf(c, a).value, v);
    }
  }

  /** An artifact passes as unsigned exactly if that is allowed and it has no signature entry. */
  lemma UnsignedExactly(c: Crypto, a: Artifact, trusted: seq<Bytes>, required: bool)
    ensures Verify(c, a, trusted, required) == Ok(NotSigned) <==>
      && !required
      && (a.bundle.Some? ==>
            forall i: nat :: i < |a.bundle.value.entries| ==> !MarkedSignature(a.bundle.value.entries[i]))
  {
    hide FindSignature, CoveredDigest, CheckSignature, MarkedSignature;
    if a.bundle.Some? {
      FindSignatureFinds(a.bundle.value.entries);
    }
  }

  /** Whatever was signed is refused by everyone who does not trust the signer. */
  lemma UntrustedIsRefused(c: Crypto, a: Artifact, seed: Bytes, scope: Scope, trusted: seq<Bytes>, required: bool)
    requires Lawful(c) && Sign(c, a, seed, scope).Ok? && c.publicKey(seed) !in trusted
    ensures Verify(c, Sign(c, a, seed, scope).value, trusted, required) == Err(UntrustedSigner)
  {
    hide ParseModule, SignedDigest, ManifestOf, Carried, CreateBundle, CoveredDigest, FindSignature, AllZero;
    var digest := SignedDigest(c, a, ManifestOf(a), scope).value;
    var s := SignatureOver(c, digest, seed, scope);
    DigestsAgree(c, a, s, scope);
    assert !AllZero(c.sign(digest, seed));
  }

  /** What the signed statement of a bundle says of the bundle, and of each entry it covers: its id, role,
      recorded hash and length, whatever the order. */
  lemma StatementSays(b: Bundle, e: Entry)
    requires e.id.Some?
    ensures var s := StatementOf(b);
      && s.header == b.header && s.moduleHash == b.moduleHash && s.manifestHash == b.manifestHash
      && (e in b.entries && !MarkedSignature(e) ==>
            exists i: nat :: i < |s.entries| && States(s.entries[i], e))
  {
    if e in b.entries && !MarkedSignature(e) {
      UnsignedKeeps(b.entries, e);
      assert e in Unsigned(b.entries);
      StatedIn(Unsigned(b.entries), e);
      SortKeeps(StatedAll(Unsigned(b.entries)), StatedOf(e));
      hide SortStated, StatedAll, Unsigned;
      var i: nat :| i < |StatementOf(b).entries| && StatementOf(b).entries[i] == StatedOf(e);
      assert States(StatementOf(b).entries[i], e);
    }
  }

  ghost predicate States(x: Stated, e: Entry) {
    e.id == Some(x.id) && x.role == e.role && x.sha == e.sha && x.length == |e.payload| && x.meta == e.meta
  }

  lemma {:induction false} StatedIn(es: seq<Entry>, e: Entry)
    requires e in es
    ensures StatedOf(e) in StatedAll(es)
  {
    if e != es[0] {
      StatedIn(es[1..], e);
    }
  }

  lemma {:induction false} InsertKeeps(xs: seq<Stated>, x: Stated, y: Stated)
    requires y == x || y in xs
    ensures y in InsertStated(xs, x)
  {
    if |xs| > 0 && y != x && y != xs[0] {
      InsertKeeps(xs[1..], x, y);
    } else if |xs| > 0 && y == x {
      InsertKeeps(xs[1..], x, y);
    }
  }

  lemma {:induction false} SortKeeps(xs: seq<Stated>, y: Stated)
    requires y in xs
    ensures y in SortStated(xs)
  {
    if y != xs[0] {
      SortKeeps(xs[1..], y);
    }
    InsertKeeps(SortStated(xs[1..]), xs[0], y);
  }

  // ----- what a bundle digest requires -----------------------------------------------------------------

  lemma {:induction false} UnsignedKeeps(es: seq<Entry>, e: Entry)
    ensures multiset(Unsigned(es))[e] == if MarkedSignature(e) then 0 else multiset(es)[e]
  {
    if |es| > 0 {
      UnsignedKeeps(es[1..], e);
      assert IsSignature(es[0]) <==> MarkedSignature(es[0]);
      hide MarkedSignature, IsSignature;
      assert es == [es[0]] + es[1..];
      HeadBag(es[0], es[1..]);
      HeadBag(es[0], Unsigned(es[1..]));
      assert [] + Unsigned(es[1..]) == Unsigned(es[1..]);
    }
  }

  ghost predicate FirstManifestAt(es: seq<Entry>, i: nat) {
    i < |es| && MarkedManifest(es[i]) && forall j: nat :: j < i ==> !MarkedManifest(es[j])
  }

  /** The recorded manifest hash is that of the first manifest, or empty if there is none. */
  ghost predicate ManifestRecorded(c: Crypto, es: seq<Entry>, hash: Bytes) {
    && (forall i: nat :: FirstManifestAt(es, i) ==> c.sha(es[i].payload) == hash)
    && ((forall i: nat :: i < |es| ==> !MarkedManifest(es[i])) ==> hash == [])
  }

  lemma {:induction false} FirstManifestFinds(es: seq<Entry>)
    ensures FirstManifest(es) == None <==> forall i: nat :: i < |es| ==> !MarkedManifest(es[i])
    ensures forall i: nat :: FirstManifestAt(es, i) ==> FirstManifest(es) == Some(es[i])
    ensures FirstManifest(es).Some? ==> exists i: nat :: FirstManifestAt(es, i)
  {
    if |es| > 0 {
      var rest := es[1..];
      FirstManifestFinds(rest);
      assert IsManifest(es[0]) <==> MarkedManifest(es[0]);
      hide MarkedManifest, IsManifest;
      if MarkedManifest(es[0]) {
        assert FirstManifestAt(es, 0);
      } else {
        assert forall i: nat :: i < |rest| ==> rest[i] == es[i + 1];
        forall i: nat | FirstManifestAt(es, i)
          ensures i > 0 && FirstManifestAt(rest, i - 1)
        {
        }
        if i: nat :| FirstManifestAt(rest, i) {
          assert FirstManifestAt(es, i + 1);
        }
      }
    }
  }

  lemma ManifestAgreesIs(c: Crypto, es: seq<Entry>, hash: Bytes)
    ensures ManifestAgrees(c, es, hash) <==> ManifestRecorded(c, es, hash)
  {
    FirstManifestFinds(es);
    hide FirstManifest, FirstManifestAt, MarkedManifest;
  }

  /** A bundle has a digest exactly when its covered entries have ids, all different, and the hashes
      of their payloads, and it records the hashes of its stripped module and of its manifest. */
  lemma DigestExactly(c: Crypto, b: Bundle, payload: Bytes)
    ensures var es := Unsigned(b.entries);
      BundleDigest(c, b, payload).Ok? <==>
        && (forall i: nat :: i < |es| ==> es[i].id.Some? && es[i].id.value != [])
        && (forall i: nat, j: nat :: i < j < |es| ==> es[i].id != es[j].id)
        && (forall i: nat :: i < |es| ==> es[i].sha == c.sha(es[i].payload))
        && Canonical(payload, b.header.prefix).Some? && |b.moduleHash| == 32
        && b.moduleHash == c.sha(Canonical(payload, b.header.prefix).value)
        && ManifestRecorded(c, es, b.manifestHash)
  {
    var es := Unsigned(b.entries);
    EntriesPass(c, es, {});
    ManifestAgreesIs(c, es, b.manifestHash);
    assert GoodIds(es) <==>
      && (forall i: nat :: i < |es| ==> es[i].id.Some? && es[i].id.value != [])
      && (forall i: nat, j: nat :: i < j < |es| ==> es[i].id != es[j].id);
    hide Unsigned, ManifestAgrees, ManifestRecorded, Canonical, EntryObjection, StatementOf;
  }

  // ----- what signing keeps ----------------------------------------------------------------------------

  /** A manifest entry, by its id or its role. */
  ghost predicate MarkedManifest(e: Entry) {
    e.id == Some([0x6d, 0x61, 0x6e, 0x69, 0x66, 0x65, 0x73, 0x74]) || e.role == ManifestRole
  }

  lemma {:induction false} PreservedKeeps(es: seq<Entry>, e: Entry)
    ensures multiset(Preserved(es))[e] == if MarkedSignature(e) || MarkedManifest(e) then 0 else multiset(es)[e]
  {
    if |es| > 0 {
      PreservedKeeps(es[1..], e);
      assert IsSignature(es[0]) <==> MarkedSignature(es[0]);
      assert IsManifest(es[0]) <==> MarkedManifest(es[0]);
      hide MarkedSignature, MarkedManifest, IsSignature, IsManifest;
      assert es == [es[0]] + es[1..];
      HeadBag(es[0], es[1..]);
      HeadBag(es[0], Preserved(es[1..]));
      assert [] + Preserved(es[1..]) == Preserved(es[1..]);
    }
  }

  lemma HeadBag<T>(x: T, xs: seq<T>)
    ensures multiset([x] + xs) == multiset{x} + multiset(xs)
  {
  }

  /** Signing strips the module, replaces the signature, keeps the manifest, and carries every other
      entry along with its payload, and every other record: the carried entries are those of the
      artifact, each as often, that are neither signatures nor manifests.  Every hash is recorded. */
  lemma SigningKeeps(c: Crypto, a: Artifact, seed: Bytes, scope: Scope)
    requires Sign(c, a, seed, scope).Ok?
    ensures var r := Sign(c, a, seed, scope).value;
      && Canonical(a.payload, SDS_PREFIX) == Some(r.payload) && r.others == a.others && r.bundle.Some?
      && var es, kept := r.bundle.value.entries, Carried(a);
        && |es| == |kept| + (if ManifestOf(a).Some? then 2 else 1)
        && (ManifestOf(a).Some? ==> MarkedManifest(es[0]) && es[0].payload == ManifestOf(a).value)
        && r.bundle.value.manifestHash == (if ManifestOf(a).Some? then c.sha(ManifestOf(a).value) else [])
        && r.bundle.value.moduleHash == c.sha(r.payload) && r.bundle.value.header.prefix == SDS_PREFIX
        && MarkedSignature(es[|es| - |kept| - 1]) && (forall i: nat :: i < |es| ==> es[i].sha == c.sha(es[i].payload))
        && (forall i: nat :: i < |kept| ==>
              es[|es| - |kept| + i] == kept[i].(sha := c.sha(kept[i].payload)))
        && (a.bundle.Some? ==> forall e: Entry ::
              multiset(kept)[e]
              == if MarkedSignature(e) || MarkedManifest(e) then 0 else multiset(a.bundle.value.entries)[e])
  {
    hide SignedDigest, Canonical, Preserved;
    if a.bundle.Some? {
      forall e: Entry
        ensures multiset(Carried(a))[e]
             == if MarkedSignature(e) || MarkedManifest(e) then 0 else multiset(a.bundle.value.entries)[e]
      {
        PreservedKeeps(a.bundle.value.entries, e);
      }
    }
  }

  ghost predicate LastManifestAt(es: seq<Entry>, i: nat) {
    && i < |es| && MarkedManifest(es[i]) && !MarkedSignature(es[i])
    && forall j: nat :: i < j < |es| ==> !MarkedManifest(es[j]) || MarkedSignature(es[j])
  }

  lemma {:induction false} LastManifestIsLast(es: seq<Entry>, i: nat)
    requires LastManifestAt(es, i)
    ensures LastManifest(es) == Some(es[i].payload)
  {
    if i > 0 {
      LastManifestIsLast(es[1..], i - 1);
    } else {
      NoManifestLeft(es[1..]);
    }
  }

  ghost predicate FirstCustomAt(xs: seq<Section>, name: Bytes, k: nat) {
    k < |xs| && IsCustom(xs[k], name) && forall j: nat :: j < k ==> !IsCustom(xs[j], name)
  }

  lemma {:induction false} FirstCustomIsFirst(xs: seq<Section>, name: Bytes)
    ensures forall k: nat :: FirstCustomAt(xs, name, k) ==>
      FirstCustom(xs, name) == Some(CustomOf(xs[k].payload).value.data)
    ensures (forall k: nat :: k < |xs| ==> !IsCustom(xs[k], name)) ==> FirstCustom(xs, name) == None
  {
    hide IsCustom, CustomOf;
    if |xs| > 0 {
      FirstCustomIsFirst(xs[1..], name);
      forall k: nat | FirstCustomAt(xs, name, k) && k > 0
        ensures FirstCustomAt(xs[1..], name, k - 1)
      {
      }
    }
  }

  /** The manifest that is kept is the last one of the bundle; if there is none, the first "sds.manifest"
      section of the module; and else there is none. */
  lemma ManifestKept(a: Artifact, i: nat, k: nat)
    requires ParseModule(a.payload).Some?
    ensures a.bundle.Some? && LastManifestAt(a.bundle.value.entries, i) ==>
      ManifestOf(a) == Some(a.bundle.value.entries[i].payload)
    ensures var xs := ParseModule(a.payload).value;
      a.bundle == None || NoManifest(a.bundle.value.entries) ==>
        && (FirstCustomAt(xs, MANIFEST_SECTION, k) ==> ManifestOf(a) == Some(CustomOf(xs[k].payload).value.data))
        && ((forall j: nat :: j < |xs| ==> !IsCustom(xs[j], MANIFEST_SECTION)) ==> ManifestOf(a) == None)
  {
    hide ParseModule, IsCustom, CustomOf, FirstCustom, LastManifest, LastManifestAt, MarkedManifest, MarkedSignature;
    FirstCustomIsFirst(ParseModule(a.payload).value, MANIFEST_SECTION);
    if a.bundle.Some? {
      if LastManifestAt(a.bundle.value.entries, i) {
        LastManifestIsLast(a.bundle.value.entries, i);
      }
      if NoManifest(a.bundle.value.entries) {
        NoManifestLeft(a.bundle.value.entries);
      }
    }
  }

  ghost predicate NoManifest(es: seq<Entry>) {
    forall j: nat :: j < |es| ==> !MarkedManifest(es[j]) || MarkedSignature(es[j])
  }

  lemma {:induction false} NoManifestLeft(es: seq<Entry>)
    requires NoManifest(es)
    ensures LastManifest(es) == None
  {
    if |es| > 0 {
      NoManifestLeft(es[1..]);
    }
  }
}
