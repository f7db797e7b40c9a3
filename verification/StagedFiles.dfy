/** The digest of a set of named files: each name, length and content behind one another, in name
    order, with NUL after each. */
module StagedFiles {
  import opened Leb128

  datatype StagedFile = StagedFile(name: Bytes, content: Bytes)

  const NUL: Byte := 0

  /** A length in decimal digits. */
  function Decimal(n: nat): (r: Bytes)
    ensures |r| > 0 && NUL !in r
  {
    var digit := (0x30 + n % 10) as Byte;
    if n < 10 then [digit] else Decimal(n / 10) + [digit]
  }

  function FileStream(f: StagedFile): Bytes {
    f.name + [NUL] + (Decimal(|f.content|) + [NUL] + (f.content + [NUL]))
  }

  function FilesStream(fs: seq<StagedFile>): Bytes {
    if |fs| == 0 then [] else FileStream(fs[0]) + FilesStream(fs[1..])
  }

  ghost predicate PlainNames(fs: seq<StagedFile>) {
    forall i: nat :: i < |fs| ==> NUL !in fs[i].name
  }

  /** Feed the files to the hash, piece by piece. */
  method FeedFiles(fs: seq<StagedFile>) returns (fed: Bytes)
    ensures fed == FilesStream(fs)
  {
    hide Decimal;
    fed := [];
    assert fs[0..] == fs;
    for i := 0 to |fs|
      invariant fed + FilesStream(fs[i..]) == FilesStream(fs)
    {
      var bytes := fs[i].content;
      ghost var before := fed;
      fed := fed + (fs[i].name + [NUL] + Decimal(|bytes|) + [NUL]);
      fed := fed + bytes;
      fed := fed + [NUL];
      assert fs[i..][1..] == fs[i + 1..];
      assert fed == before + FileStream(fs[i]);
    }
    assert fed + [] == fed;
  }

  /** What decimal digits stand for. */
  function Reading(s: Bytes): int {
    if |s| == 0 then 0 else 10 * Reading(s[..|s| - 1]) + (s[|s| - 1] as int - '0' as int)
  }

  /** A length is spelled in decimal digits that read as it, without leading zeros. */
  lemma {:induction false} DecimalReads(n: nat)
    ensures Reading(Decimal(n)) == n
    ensures forall i: nat :: i < |Decimal(n)| ==> '0' <= Decimal(n)[i] as int as char <= '9'
    ensures n > 0 ==> Decimal(n)[0] as int as char != '0'
  {
    var s := Decimal(n);
    assert s[..|s| - 1] == if n < 10 then [] else Decimal(n / 10);
    if n >= 10 {
      DecimalReads(n / 10);
      assert s[0] == Decimal(n / 10)[0];
      assert forall i: nat :: i < |s| - 1 ==> s[i] == Decimal(n / 10)[i];
    }
  }

  // ----- the stream decides the files ---------------------------------------------------------------------

  lemma {:induction false} DecimalDecides(m: nat, n: nat)
    requires Decimal(m) == Decimal(n)
    ensures m == n
  {
    var x, y := Decimal(m), Decimal(n);
    assert x[|x| - 1] == y[|y| - 1];
    assert m % 10 == n % 10;
    if m >= 10 && n >= 10 {
      assert x[..|x| - 1] == Decimal(m / 10) && y[..|y| - 1] == Decimal(n / 10);
      DecimalDecides(m / 10, n / 10);
    }
  }

  /** The first NUL ends the first field. */
  lemma CutAtNul(a: Bytes, b: Bytes, s: Bytes, t: Bytes)
    requires NUL !in a && NUL !in b && a + [NUL] + s == b + [NUL] + t
    ensures a == b && s == t
  {
    var all := a + [NUL] + s;
    assert all[|a|] == NUL && all[|b|] == NUL;
    assert forall i: nat :: i < |a| ==> all[i] in a;
    assert forall i: nat :: i < |b| ==> all[i] in b;
    assert |a| == |b|;
    assert all[..|a|] == a && all[..|b|] == b;
    assert all[|a| + 1..] == s && all[|b| + 1..] == t;
  }

  lemma FileDecides(f: StagedFile, g: StagedFile, s: Bytes, t: Bytes)
    requires NUL !in f.name && NUL !in g.name && FileStream(f) + s == FileStream(g) + t
    ensures f == g && s == t
  {
    hide Decimal;
    var x, y := f.content + [NUL] + s, g.content + [NUL] + t;
    var u, v := Decimal(|f.content|) + [NUL] + x, Decimal(|g.content|) + [NUL] + y;
    assert f.name + [NUL] + u == FileStream(f) + s && g.name + [NUL] + v == FileStream(g) + t;
    CutAtNul(f.name, g.name, u, v);
    CutAtNul(Decimal(|f.content|), Decimal(|g.content|), x, y);
    DecimalDecides(|f.content|, |g.content|);
    assert x[..|f.content|] == f.content && y[..|g.content|] == g.content;
    assert x[|f.content| + 1..] == s && y[|g.content| + 1..] == t;
  }

  /** Different lists of files, by any name, length or byte, are fed as different streams. */
  lemma {:induction false} FilesDecide(fs: seq<StagedFile>, gs: seq<StagedFile>)
    requires PlainNames(fs) && PlainNames(gs) && FilesStream(fs) == FilesStream(gs)
    ensures fs == gs
  {
    hide FileStream;
    if |fs| > 0 && |gs| > 0 {
      FileDecides(fs[0], gs[0], FilesStream(fs[1..]), FilesStream(gs[1..]));
      FilesDecide(fs[1..], gs[1..]);
      assert fs == [fs[0]] + fs[1..] && gs == [gs[0]] + gs[1..];
    } else if |fs| > 0 {
      FileIsNotEmpty(fs[0]);
    } else if |gs| > 0 {
      FileIsNotEmpty(gs[0]);
    }
  }

  lemma FileIsNotEmpty(f: StagedFile)
    ensures |FileStream(f)| > 0
  {
    hide Decimal;
  }
}
