/**
How the shared cache directory names its files
(cli/launcher/src/launch/outbound/resolve/cache.rs).
*/
module CacheNames {
  import opened Wrappers
  import opened Decimals
  import opened Verifier

  const SIGNATURE_SUFFIX := ".minisig"

  function Stem(name: string, version: string, sha: string): string {
    name + "-" + version + "-" + sha
  }

  function SignatureName(stem: string): string {
    stem + SIGNATURE_SUFFIX
  }

  function TempBinary(stem: string, pid: Pid): string {
    ".tmp-" + stem + "-" + Decimal(pid)
  }

  function TempSignature(stem: string, pid: Pid): string {
    TempBinary(stem, pid) + SIGNATURE_SUFFIX
  }

  function StripPrefix(s: string, prefix: string): Option<string> {
    if prefix <= s then Some(s[|prefix|..]) else None
  }

  /** `s.rsplit_once('-')`: what stands before and after the last dash. */
  function RSplitDash(s: string): (r: Option<(string, string)>)
    ensures r.None? <==> '-' !in s
    ensures r.Some? ==> s == r.value.0 + "-" + r.value.1 && '-' !in r.value.1
  {
    if s == "" then None
    else
      var last := |s| - 1;
      if s[last] == '-' then Some((s[..last], ""))
      else
        match RSplitDash(s[..last])
        case None => None
        case Some((before, after)) => Some((before, after + [s[last]]))
  }

  /** The checksum in a file name, when the file is an entry of this name and version. */
  function EntrySha(file: string, name: string, version: string): Option<string> {
    match StripPrefix(file, name + "-" + version + "-")
    case None => None
    case Some(sha) => if IsSha256Hex(sha) then Some(sha) else None
  }

  /** Whether retention for `name` counts the file. */
  predicate IsRetained(file: string, name: string) {
    match StripPrefix(file, name + "-")
    case None => false
    case Some(rest) =>
      match RSplitDash(rest)
      case None => false
      case Some((_, sha)) => IsSha256Hex(sha)
  }

  /** A name that ends in a dash and 64 hex digits: what every entry's binary looks like. */
  predicate IsStem(file: string) {
    |file| > 64 && file[|file| - 65] == '-' && IsSha256Hex(file[|file| - 64..])
  }

  function ShaOf(stem: string): string
    requires IsStem(stem)
  {
    stem[|stem| - 64..]
  }

  lemma HexHasNoDash(s: string)
    requires IsSha256Hex(s)
    ensures '-' !in s
  {
  }

  lemma StemIsStem(name: string, version: string, sha: string)
    requires IsSha256Hex(sha)
    ensures IsStem(Stem(name, version, sha)) && ShaOf(Stem(name, version, sha)) == sha
  {
    var front := name + "-" + version;
    assert Stem(name, version, sha) == front + "-" + sha;
    assert (front + "-" + sha)[|front| + 1..] == sha;
  }

  /** A file is an entry of a name and version exactly when it is their stem with some checksum. */
  lemma EntryIff(file: string, name: string, version: string, sha: string)
    ensures EntrySha(file, name, version) == Some(sha) <==> IsSha256Hex(sha) && file == Stem(name, version, sha)
  {
    var prefix := name + "-" + version + "-";
    assert Stem(name, version, sha) == prefix + sha;
    if file == Stem(name, version, sha) {
      assert file[|prefix|..] == sha;
    }
    if prefix <= file {
      assert file == prefix + file[|prefix|..];
    }
  }

  /** With the version fixed, a stem determines its name and its checksum. */
  lemma StemInjective(n1: string, s1: string, n2: string, s2: string, version: string)
    requires IsSha256Hex(s1) && IsSha256Hex(s2) && Stem(n1, version, s1) == Stem(n2, version, s2)
    ensures n1 == n2 && s1 == s2
  {
    var tail1, tail2 := "-" + version + "-" + s1, "-" + version + "-" + s2;
    assert Stem(n1, version, s1) == n1 + tail1 && Stem(n2, version, s2) == n2 + tail2;
    assert |n1| == |n2|;
    assert (n1 + tail1)[..|n1|] == n1 && (n2 + tail2)[..|n2|] == n2;
    StemIsStem(n1, version, s1);
    StemIsStem(n2, version, s2);
  }

  /** Retention for a name counts exactly the files `name-…-sha`, whatever stands between. */
  lemma RetainedIff(file: string, name: string)
    ensures IsRetained(file, name) <==> exists middle, sha :: IsSha256Hex(sha) && file == Stem(name, middle, sha)
  {
    var prefix := name + "-";
    if IsRetained(file, name) {
      var rest := file[|prefix|..];
      var (middle, sha) := RSplitDash(rest).value;
      assert file == prefix + rest;
      assert file == Stem(name, middle, sha);
    }
    if middle, sha :| IsSha256Hex(sha) && file == Stem(name, middle, sha) {
      var rest := middle + "-" + sha;
      assert file == prefix + rest;
      assert file[|prefix|..] == rest;
      HexHasNoDash(sha);
      RSplitIs(rest, middle, sha);
    }
  }

  lemma {:induction false} RSplitIs(s: string, before: string, after: string)
    requires s == before + "-" + after && '-' !in after
    ensures RSplitDash(s) == Some((before, after))
    decreases |after|
  {
    var last := |s| - 1;
    if after == "" {
      assert s[..last] == before;
    } else {
      assert s[last] == after[|after| - 1] && s[last] in after;
      assert s[..last] == before + "-" + after[..|after| - 1];
      RSplitIs(s[..last], before, after[..|after| - 1]);
      assert after[..|after| - 1] + [s[last]] == after;
    }
  }

  lemma RetainedIsStem(file: string, name: string)
    requires IsRetained(file, name)
    ensures IsStem(file)
  {
    RetainedIff(file, name);
    var middle, sha :| IsSha256Hex(sha) && file == Stem(name, middle, sha);
    StemIsStem(name, middle, sha);
  }

  /** Retention for a name also counts every entry of a longer name that continues it with a dash. */
  lemma RetentionSeesLongerNames(name: string, more: string, version: string, sha: string)
    requires IsSha256Hex(sha)
    ensures IsRetained(Stem(name + "-" + more, version, sha), name)
  {
    RetainedIff(Stem(name + "-" + more, version, sha), name);
    assert Stem(name + "-" + more, version, sha) == Stem(name, more + "-" + version, sha);
  }

  // ---- Temporary names never collide with anything ----

  lemma SuffixIsNotStem(s: string)
    ensures !IsStem(s + SIGNATURE_SUFFIX)
  {
    var file := s + SIGNATURE_SUFFIX;
    assert file[|file| - 1] == 'g';
    StemHexAt(file, |file| - 1);
  }

  lemma StemHexAt(s: string, i: nat)
    requires i < |s|
    ensures IsStem(s) && |s| - 64 <= i ==> IsHexDigit(s[i])
  {
    if IsStem(s) && |s| - 64 <= i {
      assert s[i] == s[|s| - 64..][i - (|s| - 64)];
    }
  }

  lemma TempBinaryIsNotStem(stem: string, pid: Pid)
    ensures !IsStem(TempBinary(stem, pid))
  {
    var file, digits := TempBinary(stem, pid), Decimal(pid);
    PidText(pid);
    var dash := |file| - |digits| - 1;
    assert file == ".tmp-" + stem + "-" + digits && file[dash] == '-';
    StemHexAt(file, dash);
  }

  lemma TempBinaryEndsInDigit(stem: string, pid: Pid)
    ensures IsDigit(TempBinary(stem, pid)[|TempBinary(stem, pid)| - 1])
  {
    PidText(pid);
    var digits := Decimal(pid);
    assert TempBinary(stem, pid)[|TempBinary(stem, pid)| - 1] == digits[|digits| - 1];
  }

  lemma TempBinaryPid(s1: string, p1: Pid, s2: string, p2: Pid)
    requires TempBinary(s1, p1) == TempBinary(s2, p2)
    ensures p1 == p2
  {
    var f1, f2 := ".tmp-" + s1, ".tmp-" + s2;
    assert TempBinary(s1, p1) == f1 + "-" + Decimal(p1) && TempBinary(s2, p2) == f2 + "-" + Decimal(p2);
    LastNumeral(f1, p1, f2, p2);
  }

  /** A temporary file is no entry, no entry's signature, and no other process's temporary file. */
  lemma TempNamesApart(stem: string, pid: Pid, entry: string, other: string, otherPid: Pid)
    requires IsStem(entry)
    ensures TempBinary(stem, pid) != entry && TempBinary(stem, pid) != SignatureName(entry)
    ensures TempSignature(stem, pid) != entry && TempSignature(stem, pid) != SignatureName(entry)
    ensures SignatureName(entry) != entry && !IsStem(SignatureName(entry))
    ensures TempBinary(stem, pid) != TempSignature(other, otherPid)
    ensures pid != otherPid ==> TempBinary(stem, pid) != TempBinary(other, otherPid)
    ensures pid != otherPid ==> TempSignature(stem, pid) != TempSignature(other, otherPid)
  {
    TempBinaryIsNotStem(stem, pid);
    SuffixIsNotStem(TempBinary(stem, pid));
    SuffixIsNotStem(entry);
    TempBinaryEndsInDigit(stem, pid);
    SuffixEndsInG(entry);
    SuffixEndsInG(TempBinary(other, otherPid));
    SuffixInjective(TempBinary(stem, pid), entry);
    SuffixInjective(TempBinary(stem, pid), TempBinary(other, otherPid));
    if TempBinary(stem, pid) == TempBinary(other, otherPid) {
      TempBinaryPid(stem, pid, other, otherPid);
    }
  }

  lemma SuffixEndsInG(s: string)
    ensures (s + SIGNATURE_SUFFIX)[|s + SIGNATURE_SUFFIX| - 1] == 'g'
  {
  }

  lemma SuffixInjective(a: string, b: string)
    ensures a + SIGNATURE_SUFFIX == b + SIGNATURE_SUFFIX ==> a == b
  {
    assert (a + SIGNATURE_SUFFIX)[..|a|] == a && (b + SIGNATURE_SUFFIX)[..|b|] == b;
  }
}
