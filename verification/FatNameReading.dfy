/** The loops that turn directory records into C strings (src/driver/fs/FAT32.c: fat_sfn_to_string,
    fat_sfn_checksum, fat_lfn_to_utf8, and strncat as the name assembly uses it). */
module FatNameReading {
  import opened Bytes
  import opened FatNames
  import opened FatRecords

  /** A buffer holds a string when the string fits and a NUL follows it. */
  predicate Holds(buffer: seq<byte>, s: seq<byte>) {
    |s| < |buffer| && buffer[..|s|] == s && buffer[|s|] == 0
  }

  lemma {:induction false} CStringStops(s: seq<byte>, n: nat)
    requires n < |s| && s[n] == 0
    ensures CString(s) == CString(s[..n])
    decreases |s|
  {
    if n > 0 && s[0] != 0 {
      CStringStops(s[1..], n - 1);
      assert s[1..][..n - 1] == s[..n][1..];
    }
  }

  lemma {:induction false} CStringIs(s: seq<byte>, n: nat)
    requires n <= |s| && 0 !in s[..n] && (n < |s| ==> s[n] == 0)
    ensures CString(s) == s[..n]
    decreases |s|
  {
    if n > 0 {
      assert s[0] == s[..n][0];
      assert s[1..][..n - 1] == s[..n][1..];
      CStringIs(s[1..], n - 1);
    }
  }

  /** What a C reader sees in the buffer. */
  lemma HeldString(buffer: seq<byte>, s: seq<byte>)
    requires Holds(buffer, s)
    ensures CString(buffer) == CString(s)
    ensures 0 !in s ==> CString(buffer) == s
  {
    CStringStops(buffer, |s|);
    if 0 !in s {
      CStringIs(s, |s|);
      assert s[..|s|] == s;
    }
  }

  // ----- short names -----

  lemma {:induction false} BeforeSpaceIs(s: seq<byte>, n: nat)
    requires n <= |s| && SPACE !in s[..n] && (n < |s| ==> s[n] == SPACE)
    ensures BeforeSpace(s) == s[..n]
    decreases |s|
  {
    if n > 0 {
      assert s[0] == s[..n][0];
      assert s[1..][..n - 1] == s[..n][1..];
      BeforeSpaceIs(s[1..], n - 1);
    }
  }

  /** Either of its loops: the characters before the first blank, to the buffer from `at` on. */
  method CopyWord(word: seq<byte>, out: array<byte>, at: nat) returns (n: nat)
    requires at + |word| <= out.Length
    modifies out
    ensures n == |BeforeSpace(word)| && out[..] == Splice(old(out[..]), at, BeforeSpace(word))
  {
    n := 0;
    while n < |word| && word[n] != SPACE
      invariant 0 <= n <= |word| && SPACE !in word[..n]
      invariant out[..] == Splice(old(out[..]), at, word[..n])
    {
      OneMore(old(out[..]), at, word, n);
      out[at + n] := word[n];
      n := n + 1;
    }
    BeforeSpaceIs(word, n);
  }

  /** fat_sfn_to_string */
  method SfnToString(name: seq<byte>, out: array<byte>)
    requires |name| == 11 && out.Length >= 13
    modifies out
    ensures Holds(out[..], ShortChars(name)) && CString(out[..]) == ShortName(name)
  {
    ghost var m0, base, extension := out[..], BeforeSpace(name[..8]), ShortExtension(name);
    var i := CopyWord(name[..8], out, 0);
    var j := CopyExtension(name, out, i);
    i := i + j;
    out[i] := 0;
    Written(m0, base, extension);
    HeldString(out[..], ShortChars(name));
  }

  /** What the dot and the extension add. */
  function ShortExtension(name: seq<byte>): seq<byte>
    requires |name| == 11
  {
    if name[8] == SPACE then [] else [DOT] + BeforeSpace(name[8..])
  }

  method CopyExtension(name: seq<byte>, out: array<byte>, at: nat) returns (n: nat)
    requires |name| == 11 && at + 4 <= out.Length
    modifies out
    ensures n == |ShortExtension(name)| <= 4 && out[..] == Splice(old(out[..]), at, ShortExtension(name))
  {
    if name[8] == SPACE {
      return 0;
    }
    out[at] := DOT;
    n := CopyWord(name[8..], out, at + 1);
    n := n + 1;
  }

  lemma Written(m: seq<byte>, base: seq<byte>, extension: seq<byte>)
    requires |base| + |extension| < |m|
    ensures Holds(Splice(Splice(m, 0, base), |base|, extension)[|base| + |extension| := 0], base + extension)
  {
  }

  /** fat_sfn_checksum */
  method SfnChecksum(name: seq<byte>) returns (sum: byte)
    requires |name| == 11
    ensures sum == Checksum(name) == SectionSum(name)
  {
    SumIsSection(name);
    sum := 0;
    var i := 0;
    assert name[0..] == name;
    while i < 11
      invariant 0 <= i <= 11 && ChecksumFrom(sum, name[i..]) == Checksum(name)
    {
      ChecksumNext(sum, name, i);
      sum := ((if sum % 2 == 1 then 0x80 else 0) + sum / 2 + name[i]) % 0x100;
      i := i + 1;
    }
  }

  lemma ChecksumNext(sum: byte, name: seq<byte>, i: nat)
    requires i < |name|
    ensures ChecksumFrom(sum, name[i..])
            == ChecksumFrom(((if sum % 2 == 1 then 0x80 else 0) + sum / 2 + name[i]) % 0x100, name[i + 1..])
  {
    assert name[i..][1..] == name[i + 1..];
  }

  // ----- long names -----

  /** fat_lfn_to_utf8 on the n units from byte o of a record: as many characters as there are, or as a buffer
      of maxLen bytes has room for behind the `len` it holds, and a NUL. */
  method LfnToUtf8(r: Record, o: nat, n: nat, out: array<byte>, maxLen: nat, len: nat) returns (added: nat)
    requires o + 2 * n <= 32 && len < maxLen && (len + n < out.Length || maxLen <= out.Length)
    requires len < out.Length
    modifies out
    ensures added == Min(|LongChars(Units(r, o, n))|, maxLen - 1 - len) && len + added < out.Length
    ensures out[..] == Splice(old(out[..]), len, LongChars(Units(r, o, n))[..added] + [0])
  {
    ghost var u, m0 := Units(r, o, n), out[..];
    ghost var chars := LongChars(u);
    FirstChar(u, chars, m0, len);
    var i, end := 0, len;
    while i < n
      invariant 0 <= i <= n && end == len + i && end < maxLen && end < out.Length
      invariant CharsFrom(u, chars, i) && Wrote(m0, len, chars, i, out[..])
    {
      var c := Le16(r, o + 2 * i);
      NextChar(u, chars, i);
      if c == 0 || c == 0xFFFF {
        break;
      }
      if end < maxLen - 1 {
        WroteMore(m0, len, chars, i, out[..]);
        out[end] := if c < 0x80 then c else QUESTION;
        end := end + 1;
        i := i + 1;
      } else {
        break;
      }
    }
    added := end - len;
    out[end] := 0;
    Terminated(m0, len, chars[..added]);
  }

  /** The first i units gave one character each. */
  predicate CharsFrom(u: seq<u16>, chars: seq<byte>, i: nat)
    requires i <= |u|
  {
    i <= |chars| <= |u| && chars[i..] == LongChars(u[i..])
  }

  predicate Wrote(m: seq<byte>, a: nat, s: seq<byte>, i: nat, m': seq<byte>) {
    i <= |s| && a + i <= |m| && m' == Splice(m, a, s[..i])
  }

  lemma WroteMore(m: seq<byte>, a: nat, s: seq<byte>, i: nat, m': seq<byte>)
    requires Wrote(m, a, s, i, m') && i < |s| && a + i < |m|
    ensures Wrote(m, a, s, i + 1, m'[a + i := s[i]])
  {
    OneMore(m, a, s, i);
  }

  lemma FirstChar(u: seq<u16>, chars: seq<byte>, m: seq<byte>, a: nat)
    requires chars == LongChars(u) && a <= |m|
    ensures CharsFrom(u, chars, 0) && Wrote(m, a, chars, 0, m)
  {
    assert u[0..] == u;
  }

  lemma NextChar(u: seq<u16>, chars: seq<byte>, i: nat)
    requires i < |u| && CharsFrom(u, chars, i)
    ensures if Stops(u[i]) then |chars| == i
            else i < |chars| && chars[i] == Narrow(u[i]) && CharsFrom(u, chars, i + 1)
  {
    assert u[i..][1..] == u[i + 1..];
    assert chars[i..] == if Stops(u[i]) then [] else [Narrow(u[i])] + LongChars(u[i + 1..]);
  }

  lemma Terminated(m: seq<byte>, a: nat, s: seq<byte>)
    requires a + |s| < |m|
    ensures Splice(m, a, s)[a + |s| := 0] == Splice(m, a, s + [0])
  {
  }

  /** Writing the next character behind the first i. */
  lemma OneMore(m: seq<byte>, a: nat, s: seq<byte>, i: nat)
    requires i < |s| && a + i < |m|
    ensures Splice(m, a, s[..i])[a + i := s[i]] == Splice(m, a, s[..i + 1])
  {
  }

  /** The three calls for one record. The part's buffer is always terminated, 26 bytes before its end. */
  method ReadPart(r: Record, segment: array<byte>)
    requires segment.Length == 40
    modifies segment
    ensures Holds(segment[..], PartName(r)) && CString(segment[..]) == PartName(r)
  {
    ghost var m := segment[..];
    ghost var x, y, z := LongChars(Units(r, 1, 5)), LongChars(Units(r, 14, 6)), LongChars(Units(r, 28, 2));
    assert x[..|x|] == x && y[..|y|] == y && z[..|z|] == z;
    var len := 0;
    var n := LfnToUtf8(r, 1, 5, segment, 256, len);
    len := len + n;
    n := LfnToUtf8(r, 14, 6, segment, 256, len);
    len := len + n;
    n := LfnToUtf8(r, 28, 2, segment, 256, len);
    ThreeStrings(m, x, y, z);
    HeldString(segment[..], PartName(r));
  }

  lemma ThreeStrings(m: seq<byte>, x: seq<byte>, y: seq<byte>, z: seq<byte>)
    requires |x| + |y| + |z| < |m|
    ensures Holds(Splice(Splice(Splice(m, 0, x + [0]), |x|, y + [0]), |x| + |y|, z + [0]), x + y + z)
  {
  }

  // ----- strings -----

  /** strlen */
  method Strlen(s: array<byte>, ghost held: seq<byte>) returns (n: nat)
    requires Holds(s[..], held) && 0 !in held
    ensures n == |held|
  {
    n := 0;
    while s[n] != 0
      invariant 0 <= n <= |held|
      decreases |held| - n
    {
      assert n < |held| ==> s[..][n] == held[n];
      n := n + 1;
    }
  }

  /** strncat: at most n characters of a string, and a NUL. */
  method Strncat(dest: array<byte>, src: seq<byte>, n: nat, ghost held: seq<byte>)
    requires Holds(dest[..], held) && 0 !in held && 0 !in src && |held| + Min(|src|, n) < dest.Length
    modifies dest
    ensures Holds(dest[..], held + src[..Min(|src|, n)])
  {
    var end := Strlen(dest, held);
    var i := 0;
    while i < n && i < |src|
      invariant 0 <= i <= Min(|src|, n) && end == |held|
      invariant dest[..end + i] == held + src[..i]
    {
      dest[end + i] := src[i];
      i := i + 1;
    }
    dest[end + i] := 0;
    assert dest[..end + i] == held + src[..i];
  }

  /** The assembly of a long name: the first `found` part buffers, as far as there are any, joined and cut
      so that the name and its NUL fit the 256 bytes. */
  method Assemble(parts: seq<seq<byte>>, found: byte, filename: array<byte>)
    requires |parts| == MAX_PARTS && (forall i :: 0 <= i < MAX_PARTS ==> 0 !in parts[i])
    requires filename.Length == 256
    modifies filename
    ensures CString(filename[..]) == Joined(parts, Min(found, MAX_PARTS))
    ensures Holds(filename[..], Joined(parts, Min(found, MAX_PARTS)))
  {
    filename[0] := 0;
    var i := 0;
    while i < found && i < MAX_PARTS
      invariant 0 <= i <= Min(found, MAX_PARTS) && 0 !in Joined(parts, i)
      invariant Holds(filename[..], Joined(parts, i))
    {
      ghost var s := Joined(parts, i);
      assert 0 !in parts[i];
      CutRoom(s, parts[i]);
      if parts[i] != [] {
        var len := Strlen(filename, s);
        Strncat(filename, parts[i], 255 - len, s);
      }
      i := i + 1;
    }
    HeldString(filename[..], Joined(parts, i));
    filename[255] := 0;
    HeldString(filename[..], Joined(parts, i));
  }

  lemma CutRoom(s: seq<byte>, p: seq<byte>)
    requires |s| <= MAX_NAME && 0 !in s && 0 !in p
    ensures Cut(s + p) == s + p[..Min(|p|, MAX_NAME - |s|)] && 0 !in Cut(s + p)
  {
  }
}
