/**
 * The bytes a client verifies before it installs an update: the entry's fields, a line each.
 */
module SignedMessage {
  import opened Options
  import opened Decimals
  import opened Versions

  datatype Entry = Entry(platform: string, arch: string, version: string, sha256: string, size: nat)

  const LARGEST := 512 * 1024 * 1024

  predicate IsTarget(e: Entry) {
    (e.platform == "windows" && e.arch == "x64") || (e.platform == "macos" && (e.arch == "arm64" || e.arch == "x64"))
  }

  predicate CanSign(e: Entry) {
    && IsTarget(e) && IsVersion(e.version) && 0 < e.size <= LARGEST
    && |e.sha256| == 64 && forall i | 0 <= i < 64 :: IsHexDigit(e.sha256[i])
  }

  function Fields(e: Entry): seq<string> {
    ["superkiro-update/1", "platform=" + e.platform, "arch=" + e.arch, "version=" + e.version, "sha256=" + e.sha256,
      "size=" + NatText(e.size)]
  }

  function Message(e: Entry): Option<string> { if CanSign(e) then Some(JoinWith(Fields(e), '\n')) else None }

  /**
   * An entry that can be signed: of one of the three targets, up to 512 MiB, with a digest of 64 hexadecimal digits.
   */
  predicate IsSignable(e: Entry) {
    && (e.platform, e.arch) in {("windows", "x64"), ("macos", "arm64"), ("macos", "x64")}
    && IsVersion(e.version) && e.size > 0 && e.size < 536870913
    && |e.sha256| == 64 && forall c | c in e.sha256 :: c in "0123456789abcdef"
  }

  /** The six lines of an entry that can be signed; of any other, nothing. */
  lemma MessageIs(e: Entry)
    ensures Message(e) ==
              if IsSignable(e) then
                Some("superkiro-update/1" + "\n" + ("platform=" + e.platform + "\n" + ("arch=" + e.arch + "\n"
                  + ("version=" + e.version + "\n" + ("sha256=" + e.sha256 + "\n" + ("size=" + NatText(e.size)))))))
              else None
  {
    assert forall c: char :: IsHexDigit(c) <==> c in "0123456789abcdef";
    forall i | 0 <= i < |e.sha256| ensures e.sha256[i] in e.sha256 {}
    if CanSign(e) {
      forall c | c in e.sha256 ensures IsHexDigit(c) {}
    }
    assert CanSign(e) <==> IsSignable(e);
    SixLines("superkiro-update/1", "platform=" + e.platform, "arch=" + e.arch, "version=" + e.version,
      "sha256=" + e.sha256, "size=" + NatText(e.size));
  }

  lemma SixLines(a: string, b: string, c: string, d: string, e: string, f: string)
    ensures JoinWith([a, b, c, d, e, f], '\n') ==
              a + "\n" + (b + "\n" + (c + "\n" + (d + "\n" + (e + "\n" + f))))
  {
    OneLine(e, [f]);
    OneLine(d, [e, f]);
    OneLine(c, [d, e, f]);
    OneLine(b, [c, d, e, f]);
    OneLine(a, [b, c, d, e, f]);
  }

  lemma OneLine(a: string, rest: seq<string>)
    requires rest != []
    ensures JoinWith([a] + rest, '\n') == a + "\n" + JoinWith(rest, '\n')
  {
    assert ([a] + rest)[1..] == rest;
  }

  lemma VersionIsPlain(version: string)
    requires IsVersion(version)
    ensures Free(version, '\n')
  {
    forall i | 0 <= i < |version| ensures version[i] != '\n' {
      if version[i] != '.' {
        SplitCovers(version, '.', i);
        var parts := Split(version, '.');
        var k, j :| 0 <= k < |parts| && 0 <= j < |parts[k]| && parts[k][j] == version[i];
        assert IsPart(parts[k]) && IsDigit(parts[k][j]);
      }
    }
  }

  lemma FreeJoin(a: string, b: string)
    requires Free(a, '\n') && Free(b, '\n')
    ensures Free(a + b, '\n')
  {
  }

  lemma FieldsArePlain(e: Entry)
    requires CanSign(e)
    ensures forall k | 0 <= k < 6 :: Free(Fields(e)[k], '\n')
  {
    VersionIsPlain(e.version);
    var size := NatText(e.size);
    assert forall i | 0 <= i < |size| :: IsDigit(size[i]);
    FreeJoin("platform=", e.platform);
    FreeJoin("arch=", e.arch);
    FreeJoin("version=", e.version);
    FreeJoin("sha256=", e.sha256);
    FreeJoin("size=", size);
  }

  /** Equal messages sign equal entries: nothing in one field can be taken for another. */
  lemma MessageInjective(a: Entry, b: Entry)
    requires Message(a).Some? && Message(a) == Message(b)
    ensures a == b
  {
    FieldsArePlain(a);
    FieldsArePlain(b);
    SplitJoins(Fields(a), '\n');
    SplitJoins(Fields(b), '\n');
    SameFields(a, b);
  }

  lemma SameFields(a: Entry, b: Entry)
    requires Fields(a) == Fields(b)
    ensures a == b
  {
    var x, y := Fields(a), Fields(b);
    assert x[1] == y[1] && x[2] == y[2] && x[3] == y[3] && x[4] == y[4] && x[5] == y[5];
    assert a.platform == x[1][9..] && b.platform == y[1][9..];
    assert a.arch == x[2][5..] && b.arch == y[2][5..];
    assert a.version == x[3][8..] && b.version == y[3][8..];
    assert a.sha256 == x[4][7..] && b.sha256 == y[4][7..];
    assert NatText(a.size) == x[5][5..] && NatText(b.size) == y[5][5..];
    NatTextInjective(a.size, b.size);
  }
}
