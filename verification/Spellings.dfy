/** The byte constants of the model as the texts they stand for. */
module Spellings {
  import opened Leb128
  import BuildSteps
  import CacheEntry
  import CacheKeys
  import CompileCache
  import LinkNamespaces
  import ObjectRenaming
  import Signing
  import SimdGuard
  import TargetFeatures
  import WasmModule

  /** A text as its ASCII bytes. */
  function Ascii(s: string): (r: Bytes)
    requires forall i: nat :: i < |s| ==> s[i] as int < 128
    ensures |r| == |s| && forall i: nat :: i < |s| ==> r[i] as int == s[i] as int
  {
    seq(|s|, i requires 0 <= i < |s| => s[i] as int as Byte)
  }

  lemma KeyMembersAreSpelled()
    ensures CacheKeys.FORMAT == Ascii("format") && CacheKeys.SDK == Ascii("sdk")
    ensures CacheKeys.SDK_VERSION == Ascii("sdkVersion") && CacheKeys.COMPILER_SOURCES == Ascii("compilerSources")
    ensures CacheKeys.TOOLCHAIN == Ascii("toolchain") && CacheKeys.KIND == Ascii("kind") && CacheKeys.ID == Ascii("id")
    ensures CacheKeys.SUPPORT == Ascii("support") && CacheKeys.STEP == Ascii("step") && CacheKeys.ARGV == Ascii("argv")
    ensures CacheKeys.SOURCE == Ascii("source") && CacheKeys.OBJECTS == Ascii("objects")
    ensures CacheKeys.LINK == Ascii("link")
  {
  }

  lemma EntriesAreSpelled()
    ensures CacheEntry.MAGIC == Ascii("SDMCC2\n")
    ensures CompileCache.OBJECT == Ascii("object") && CompileCache.WASM == Ascii("wasm")
    ensures BuildSteps.LIBRARY_STEM == Ascii("library-") && BuildSteps.LIBRARY_STEP == Ascii("library:")
    ensures BuildSteps.OBJECT_SUFFIX == Ascii(".o") && [BuildSteps.UNDERSCORE] == Ascii("_")
    ensures BuildSteps.A_DASH_B == Ascii("a-b") && BuildSteps.A_DOT_B == Ascii("a.b")
  {
  }

  lemma SectionsAreSpelled()
    ensures WasmModule.HEADER[1..4] == Ascii("asm") && WasmModule.HEADER[0] == 0
    ensures WasmModule.HEADER[4..] == [1, 0, 0, 0]
    ensures ObjectRenaming.LINKING == Ascii("linking") && TargetFeatures.TARGET_FEATURES == Ascii("target_features")
    ensures SimdGuard.SIMD128 == Ascii("simd128") && SimdGuard.RELAXED_SIMD == Ascii("relaxed-simd")
    ensures [SimdGuard.DISALLOWED] == Ascii("-")
  {
  }

  /** Letters, digits and the underscore, as characters. */
  lemma CharactersAreSpelled(b: Byte)
    ensures var c := b as int as char;
      && (BuildSteps.Alphanumeric(b) <==> '0' <= c <= '9' || 'A' <= c <= 'Z' || 'a' <= c <= 'z')
      && (LinkNamespaces.IsLetter(b) <==> 'A' <= c <= 'Z' || 'a' <= c <= 'z' || c == '_')
  {
  }

  /** An identifier: a letter or underscore, and then letters, digits and underscores. */
  lemma IdentifiersAreSpelled(name: Bytes)
    ensures LinkNamespaces.IsIdentifier(name) <==>
      && name != [] && LinkNamespaces.IsLetter(name[0])
      && forall i: nat :: i < |name| ==> LinkNamespaces.IsLetter(name[i]) || '0' <= name[i] as int as char <= '9'
  {
  }

  lemma DigitsAreSpelled(n: nat)
    requires n < 16
    ensures LinkNamespaces.HexDigit(n) == Ascii("0123456789abcdef")[n]
  {
  }

  lemma NamesAreSpelled()
    ensures LinkNamespaces.SDM_GUEST == Ascii("sdm_guest_") && [LinkNamespaces.UNDERSCORE] == Ascii("_")
    ensures Signing.SDS_PREFIX == Ascii("sds.") && Signing.MANIFEST_SECTION == Ascii("sds.manifest")
    ensures Signing.MANIFEST_ID == Ascii("manifest") && Signing.SIGNATURE_ID == Ascii("signature")
  {
  }
}
