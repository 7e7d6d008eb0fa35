/** File lists as the Linux agent reads and writes them: percent-encoded file
    URIs (section 2.1 of RFC 3986), one a line
    (linux/input-router/src/clipboard.rs). Texts and paths are their UTF-8 bytes. */
module FileList {
  import opened Bytes
  import opened Newlines

  const PERCENT: u8 := 0x25
  const SCHEME: seq<u8> := [0x66, 0x69, 0x6c, 0x65, 0x3a, 0x2f, 0x2f]  // file://
  const COPY: seq<u8> := [0x63, 0x6f, 0x70, 0x79]
  const CUT: seq<u8> := [0x63, 0x75, 0x74]

  // ----- writing a URI -----------------------------------------------------------

  predicate Kept(b: u8) {
    || 0x30 <= b <= 0x39 || 0x41 <= b <= 0x5a || 0x61 <= b <= 0x7a
    || b == 0x2f || b == 0x2d || b == 0x5f || b == 0x2e || b == 0x7e
  }

  function HexDigit(n: nat): u8
    requires n < 16
  {
    if n < 10 then 0x30 + n else 0x41 + n - 10
  }

  function EncodeByte(b: u8): (e: seq<u8>)
    ensures |e| == 1 || |e| == 3
    ensures forall i :: 0 <= i < |e| ==> 0x25 <= e[i] <= 0x7e
  {
    if Kept(b) then [b] else [PERCENT, HexDigit(b / 16), HexDigit(b % 16)]
  }

  function Encode(path: seq<u8>): seq<u8> {
    if path == [] then [] else Encode(path[..|path| - 1]) + EncodeByte(path[|path| - 1])
  }

  lemma EncodeNext(path: seq<u8>, i: nat)
    requires i < |path|
    ensures Encode(path[..i + 1]) == Encode(path[..i]) + EncodeByte(path[i])
  {
    hide EncodeByte;
    assert path[..i + 1][..i] == path[..i];
  }

  method PathToUri(path: seq<u8>) returns (uri: seq<u8>)
    ensures uri == SCHEME + Encode(path)
  {
    hide Encode, HexDigit;
    uri := SCHEME;
    EncodeNothing();
    for i := 0 to |path|
      invariant uri == SCHEME + Encode(path[..i])
    {
      EncodeNext(path, i);
      if Kept(path[i]) {
        uri := uri + [path[i]];
      } else {
        uri := uri + [PERCENT, HexDigit(path[i] / 16), HexDigit(path[i] % 16)];
      }
    }
    assert path[..|path|] == path;
  }

  lemma EncodeNothing()
    ensures Encode([]) == []
  {
  }

  // ----- reading a URI -----------------------------------------------------------

  function DigitValue(b: u8): Option<nat> {
    if 0x30 <= b <= 0x39 then Some(b - 0x30)
    else if 0x41 <= b <= 0x46 then Some(b - 0x41 + 10)
    else if 0x61 <= b <= 0x66 then Some(b - 0x61 + 10)
    else None
  }

  /** Two characters read in base 16; a plus sign before one digit is accepted. */
  function HexPair(a: u8, b: u8): (v: Option<u8>) {
    var hi, lo := if a == 0x2b then Some(0) else DigitValue(a), DigitValue(b);
    if hi.Some? && lo.Some? then Some(16 * hi.value + lo.value) else None
  }

  /** An escape needs two more characters; a percent sign nearer the end stands
      for itself. */
  function Decode(s: seq<u8>): Option<seq<u8>> {
    if s == [] then Some([])
    else if s[0] == PERCENT && |s| > 2 then
      var v, rest := HexPair(s[1], s[2]), Decode(s[3..]);
      if v.Some? && rest.Some? then Some([v.value] + rest.value) else None
    else
      var rest := Decode(s[1..]);
      if rest.Some? then Some([s[0]] + rest.value) else None
  }

  /** Bytes of the white-space character at the front of a text, or none. */
  function SpaceAtFront(s: seq<u8>): (n: nat)
    ensures n <= |s|
  {
    if |s| >= 1 && (s[0] == 0x20 || 0x09 <= s[0] <= 0x0d) then 1
    else if |s| >= 2 && s[0] == 0xc2 && (s[1] == 0x85 || s[1] == 0xa0) then 2
    else if |s| >= 3 && WideSpace(s[0], s[1], s[2]) then 3
    else 0
  }

  function SpaceAtBack(s: seq<u8>): (n: nat)
    ensures n <= |s|
  {
    var k := |s|;
    if k >= 1 && (s[k - 1] == 0x20 || 0x09 <= s[k - 1] <= 0x0d) then 1
    else if k >= 2 && s[k - 2] == 0xc2 && (s[k - 1] == 0x85 || s[k - 1] == 0xa0) then 2
    else if k >= 3 && WideSpace(s[k - 3], s[k - 2], s[k - 1]) then 3
    else 0
  }

  /** U+1680, U+2000 to U+200A, U+2028, U+2029, U+202F, U+205F and U+3000. */
  predicate WideSpace(a: u8, b: u8, c: u8) {
    || (a == 0xe1 && b == 0x9a && c == 0x80)
    || (a == 0xe2 && b == 0x80 && (0x80 <= c <= 0x8a || c == 0xa8 || c == 0xa9 || c == 0xaf))
    || (a == 0xe2 && b == 0x81 && c == 0x9f)
    || (a == 0xe3 && b == 0x80 && c == 0x80)
  }

  function Trim(s: seq<u8>): seq<u8>
    decreases |s|
  {
    if SpaceAtFront(s) > 0 then Trim(s[SpaceAtFront(s)..])
    else if SpaceAtBack(s) > 0 then Trim(s[..|s| - SpaceAtBack(s)])
    else s
  }

  function PathOf(uri: seq<u8>): Option<seq<u8>> {
    var t := Trim(uri);
    if SCHEME <= t then Decode(t[|SCHEME|..]) else None
  }

  method UriToPath(uri: seq<u8>) returns (r: Option<seq<u8>>)
    ensures r == PathOf(uri)
  {
    hide Trim, HexPair;
    var t := Trim(uri);
    if !(SCHEME <= t) {
      return None;
    }
    var raw := t[|SCHEME|..];
    var out: seq<u8> := [];
    var i := 0;
    AfterOne([], 0, Decode(raw));
    assert raw[0..] == raw;
    while i < |raw|
      invariant 0 <= i <= |raw|
      invariant Decode(raw) == After(out, Decode(raw[i..]))
    {
      if raw[i] == PERCENT && i + 2 < |raw| {
        var v := HexPair(raw[i + 1], raw[i + 2]);
        if v.None? {
          return None;
        }
        assert raw[i..][3..] == raw[i + 3..];
        AfterOne(out, v.value, Decode(raw[i + 3..]));
        out := out + [v.value];
        i := i + 3;
      } else {
        assert raw[i..][1..] == raw[i + 1..];
        AfterOne(out, raw[i], Decode(raw[i + 1..]));
        out := out + [raw[i]];
        i := i + 1;
      }
    }
    assert raw[i..] == [] && out + [] == out;
    r := Some(out);
  }

  function After(out: seq<u8>, rest: Option<seq<u8>>): Option<seq<u8>> {
    if rest.Some? then Some(out + rest.value) else None
  }

  lemma AfterOne(out: seq<u8>, b: u8, rest: Option<seq<u8>>)
    ensures After(out, After([b], rest)) == After(out + [b], rest)
    ensures After([], rest) == rest
  {
    if rest.Some? {
      assert out + ([b] + rest.value) == out + [b] + rest.value;
      assert [] + rest.value == rest.value;
    }
  }

  // ----- lists -----------------------------------------------------------------------

  /** The lines of a text, each without its LF or CR LF; text behind the last LF
      is a line of its own. */
  function Lines(s: seq<u8>): seq<seq<u8>>
    decreases |s|
  {
    if s == [] then []
    else
      var n := LineEnd(s);
      if n == |s| then [s] else [WithoutCr(s[..n])] + Lines(s[n + 1..])
  }

  function LineEnd(s: seq<u8>): (n: nat)
    ensures n <= |s| && LF !in s[..n] && (n < |s| ==> s[n] == LF)
  {
    if s == [] || s[0] == LF then 0
    else
      var n := LineEnd(s[1..]);
      assert s[..n + 1] == [s[0]] + s[1..][..n];
      n + 1
  }

  function WithoutCr(s: seq<u8>): seq<u8> {
    if s != [] && s[|s| - 1] == CR then s[..|s| - 1] else s
  }

  predicate Listed(line: seq<u8>) {
    line != [] && line[0] != 0x23 && line != COPY && line != CUT
  }

  function PathsOf(lines: seq<seq<u8>>): seq<seq<u8>> {
    if lines == [] then []
    else
      (if Listed(lines[0]) && PathOf(lines[0]).Some? then [PathOf(lines[0]).value] else [])
      + PathsOf(lines[1..])
  }

  function ParseFileList(data: seq<u8>): seq<seq<u8>> { PathsOf(Lines(data)) }

  function ListOf(paths: seq<seq<u8>>): seq<u8> {
    if paths == [] then COPY
    else ListOf(paths[..|paths| - 1]) + [LF] + (SCHEME + Encode(paths[|paths| - 1]))
  }

  method BuildList(paths: seq<seq<u8>>) returns (list: seq<u8>)
    ensures list == ListOf(paths)
  {
    hide Encode;
    list := COPY;
    for i := 0 to |paths|
      invariant list == ListOf(paths[..i])
    {
      assert paths[..i + 1][..i] == paths[..i];
      var uri := PathToUri(paths[i]);
      list := list + [LF];
      list := list + uri;
    }
    assert paths[..|paths|] == paths;
  }

  // ----- round trips -------------------------------------------------------------------

  lemma HexInverts(b: u8)
    ensures HexPair(HexDigit(b / 16), HexDigit(b % 16)) == Some(b)
  {
    DigitInverts(b / 16);
    DigitInverts(b % 16);
    hide HexDigit, DigitValue;
  }

  lemma DigitInverts(n: nat)
    requires n < 16
    ensures DigitValue(HexDigit(n)) == Some(n) && HexDigit(n) != 0x2b
  {
  }

  lemma DecodeByte(b: u8, rest: seq<u8>)
    ensures Decode(EncodeByte(b) + rest) == After([b], Decode(rest))
  {
    hide HexPair, HexDigit;
    HexInverts(b);
    var e := EncodeByte(b);
    assert (e + rest)[|e|..] == rest;
  }

  lemma {:induction false} DecodeInverts(path: seq<u8>, rest: seq<u8>)
    ensures Decode(Encode(path) + rest) == After(path, Decode(rest))
  {
    hide Decode, EncodeByte;
    if path == [] {
      assert [] + rest == rest;
      AfterOne([], 0, Decode(rest));
    } else {
      var n := |path| - 1;
      var front, b := path[..n], path[n];
      assert Encode(path) + rest == Encode(front) + (EncodeByte(b) + rest);
      DecodeInverts(front, EncodeByte(b) + rest);
      DecodeByte(b, rest);
      AfterOne(front, b, Decode(rest));
      assert path == front + [b];
    }
  }

  /** Only these characters are written, so no URI contains white space or a line
      break, and none starts a comment. */
  lemma {:induction false} EncodedIsPlain(path: seq<u8>)
    ensures forall i :: 0 <= i < |Encode(path)| ==> 0x25 <= Encode(path)[i] <= 0x7e
  {
    hide EncodeByte;
    if path != [] {
      EncodedIsPlain(path[..|path| - 1]);
    }
  }

  /** Every path, whatever bytes it has, comes back from its URI. */
  lemma UriRoundTrip(path: seq<u8>)
    ensures PathOf(SCHEME + Encode(path)) == Some(path)
  {
    hide Decode, Encode;
    var uri := SCHEME + Encode(path);
    EncodedIsPlain(path);
    assert Trim(uri) == uri;
    assert uri[|SCHEME|..] == Encode(path);
    assert Encode(path) + [] == Encode(path) && path + [] == path;
    DecodeInverts(path, []);
    DecodeNothing();
  }

  lemma DecodeNothing()
    ensures Decode([]) == Some([])
  {
  }

  /** One line and what is behind its end. */
  lemma LinesSplit(line: seq<u8>, rest: seq<u8>)
    requires LF !in line
    ensures Lines(line + [LF] + rest) == [WithoutCr(line)] + Lines(rest)
  {
    hide LineEnd, WithoutCr;
    var t := line + [LF] + rest;
    assert t[..|line|] == line && t[|line| + 1..] == rest;
    LineEndIs(t, |line|);
  }

  lemma LinesAlone(line: seq<u8>)
    requires line != [] && LF !in line
    ensures Lines(line) == [line]
  {
    hide LineEnd;
    assert line[..|line|] == line;
    LineEndIs(line, |line|);
  }

  lemma {:induction false} LinesAppend(s: seq<u8>, line: seq<u8>)
    requires s != [] && s[|s| - 1] != LF && s[|s| - 1] != CR
    requires line != [] && LF !in line
    ensures Lines(s + [LF] + line) == Lines(s) + [line]
    decreases |s|
  {
    hide Lines, LineEnd;
    var n := LineEnd(s);
    LinesAlone(line);
    if n == |s| {
      assert s[..n] == s;
      LinesAlone(s);
      LinesSplit(s, line);
    } else {
      var first, rest := s[..n], s[n + 1..];
      assert s == first + [LF] + rest;
      assert s + [LF] + line == first + [LF] + (rest + [LF] + line);
      LinesSplit(first, rest);
      LinesSplit(first, rest + [LF] + line);
      assert rest[|rest| - 1] == s[|s| - 1];
      LinesAppend(rest, line);
      assert [WithoutCr(first)] + (Lines(rest) + [line]) == [WithoutCr(first)] + Lines(rest) + [line];
    }
  }

  lemma {:induction false} LineEndIs(s: seq<u8>, n: nat)
    requires n <= |s| && LF !in s[..n] && (n < |s| ==> s[n] == LF)
    ensures LineEnd(s) == n
  {
    var m := LineEnd(s);
    forall k | 0 <= k < n ensures s[k] != LF {
      assert s[..n][k] == s[k];
    }
    forall k | 0 <= k < m ensures s[k] != LF {
      assert s[..m][k] == s[k];
    }
  }

  lemma {:induction false} PathsAppend(lines: seq<seq<u8>>, line: seq<u8>)
    ensures PathsOf(lines + [line])
         == PathsOf(lines) + if Listed(line) && PathOf(line).Some? then [PathOf(line).value] else []
  {
    hide PathOf, Listed;
    if lines == [] {
      assert [line][1..] == [] && [] + [line] == [line];
    } else {
      assert (lines + [line])[1..] == lines[1..] + [line];
      PathsAppend(lines[1..], line);
    }
  }

  lemma CopyAlone()
    ensures ParseFileList(COPY) == []
  {
    LineEndIs(COPY, |COPY|);
    assert Lines(COPY) == [COPY] && [COPY][1..] == [];
    assert !Listed(COPY);
    assert PathsOf([COPY]) == [];
  }

  lemma ListEndsPlain(paths: seq<seq<u8>>)
    ensures var s := ListOf(paths); s != [] && s[|s| - 1] != LF && s[|s| - 1] != CR
  {
    if paths != [] {
      EncodedIsPlain(paths[|paths| - 1]);
    }
  }

  /** The list written for any paths is read back as exactly those paths, in
      order, line breaks, percent signs and non-ASCII bytes in them included. */
  lemma {:induction false} FileListRoundTrip(paths: seq<seq<u8>>)
    ensures ParseFileList(ListOf(paths)) == paths
  {
    hide Lines, PathsOf, PathOf, Encode;
    if paths == [] {
      CopyAlone();
    } else {
      var front, last := paths[..|paths| - 1], paths[|paths| - 1];
      var uri := SCHEME + Encode(last);
      FileListRoundTrip(front);
      ListEndsPlain(front);
      EncodedIsPlain(last);
      LinesAppend(ListOf(front), uri);
      PathsAppend(Lines(ListOf(front)), uri);
      UriRoundTrip(last);
      assert paths == front + [last];
    }
  }

  // ----- lists and URIs written by others ---------------------------------------------

  predicate IsHexDigit(b: u8) { 0x30 <= b <= 0x39 || 0x41 <= b <= 0x46 || 0x61 <= b <= 0x66 }

  /** How a writer may put a byte: as it is, or escaped in either case. */
  datatype Spelling = Plain | Upper | Lower

  function LowerDigit(n: nat): u8
    requires n < 16
  {
    if n < 10 then 0x30 + n else 0x61 + n - 10
  }

  function SpellByte(b: u8, how: Spelling): seq<u8> {
    match how
    case Plain => [b]
    case Upper => [PERCENT, HexDigit(b / 16), HexDigit(b % 16)]
    case Lower => [PERCENT, LowerDigit(b / 16), LowerDigit(b % 16)]
  }

  function Spell(path: seq<u8>, how: seq<Spelling>): seq<u8>
    requires |how| == |path|
  {
    if path == [] then [] else SpellByte(path[0], how[0]) + Spell(path[1..], how[1..])
  }

  /** Whichever bytes a writer escapes, and in which case, the path is read back, as
      long as percent signs are escaped. */
  lemma {:induction false} AnySpellingIsRead(path: seq<u8>, how: seq<Spelling>, rest: seq<u8>)
    requires |how| == |path| && forall i :: 0 <= i < |path| && path[i] == PERCENT ==> !how[i].Plain?
    ensures Decode(Spell(path, how) + rest) == After(path, Decode(rest))
  {
    hide Decode, SpellByte;
    if path == [] {
      assert [] + rest == rest;
      AfterOne([], 0, Decode(rest));
    } else {
      var more := Spell(path[1..], how[1..]) + rest;
      AnySpellingIsRead(path[1..], how[1..], rest);
      SpelledByte(path[0], how[0], more);
      assert Spell(path, how) + rest == SpellByte(path[0], how[0]) + more;
      assert path == [path[0]] + path[1..];
      AfterTwo([path[0]], path[1..], Decode(rest));
    }
  }

  lemma AfterTwo(a: seq<u8>, b: seq<u8>, rest: Option<seq<u8>>)
    ensures After(a, After(b, rest)) == After(a + b, rest)
  {
    if rest.Some? {
      assert a + (b + rest.value) == a + b + rest.value;
    }
  }

  lemma SpelledByte(b: u8, how: Spelling, rest: seq<u8>)
    requires b == PERCENT ==> !how.Plain?
    ensures Decode(SpellByte(b, how) + rest) == After([b], Decode(rest))
  {
    hide HexPair, HexDigit, LowerDigit;
    HexInverts(b);
    LowerInverts(b / 16);
    LowerInverts(b % 16);
    PairOf(LowerDigit(b / 16), LowerDigit(b % 16));
    var e := SpellByte(b, how);
    assert (e + rest)[|e|..] == rest;
  }

  lemma LowerInverts(n: nat)
    requires n < 16
    ensures DigitValue(LowerDigit(n)) == Some(n) && LowerDigit(n) != 0x2b
  {
  }

  lemma PairOf(a: u8, b: u8)
    requires a != 0x2b && DigitValue(a).Some? && DigitValue(b).Some?
    ensures HexPair(a, b) == Some(16 * DigitValue(a).value + DigitValue(b).value)
  {
  }

  /** A percent sign that has two characters behind it and is no escape spoils the
      whole URI, whatever precedes it. */
  lemma BadEscapeRefused(path: seq<u8>, how: seq<Spelling>, a: u8, b: u8, rest: seq<u8>)
    requires |how| == |path| && forall i :: 0 <= i < |path| && path[i] == PERCENT ==> !how[i].Plain?
    requires !(IsHexDigit(a) || a == 0x2b) || !IsHexDigit(b)
    ensures Decode(Spell(path, how) + ([PERCENT, a, b] + rest)) == None
  {
    AnySpellingIsRead(path, how, [PERCENT, a, b] + rest);
  }

  /** The unreserved characters of section 2.3 of RFC 3986. */
  predicate Unreserved(b: u8) {
    || 'a' as int <= b <= 'z' as int || 'A' as int <= b <= 'Z' as int || '0' as int <= b <= '9' as int
    || b == '-' as int || b == '.' as int || b == '_' as int || b == '~' as int
  }

  lemma ByteAsIsIff(b: u8)
    ensures |EncodeByte(b)| == 1 <==> Unreserved(b) || b == '/' as int
    ensures |EncodeByte(b)| == 1 ==> EncodeByte(b) == [b]
  {
    hide HexDigit;
  }

  /** The writer leaves exactly the unreserved characters and slashes as they are. */
  lemma {:induction false} EncodedAsIsIff(path: seq<u8>)
    ensures |Encode(path)| >= |path|
    ensures Encode(path) == path <==> forall i :: 0 <= i < |path| ==> Unreserved(path[i]) || path[i] == '/' as int
  {
    hide EncodeByte, Unreserved;
    if path != [] {
      var n := |path| - 1;
      var front, e := Encode(path[..n]), EncodeByte(path[n]);
      EncodedAsIsIff(path[..n]);
      ByteAsIsIff(path[n]);
      assert path == path[..n] + [path[n]];
      if Encode(path) == path {
        assert |front| == n && |e| == 1;
        assert front == (front + e)[..n] == path[..n];
      }
    }
  }

  /** One line of a list more, ended by LF or CR LF: the path it names, or nothing
      for an empty line, a comment, one of the words copy and cut, or a line that is
      no file URI. */
  lemma LineRead(line: seq<u8>, cr: bool, rest: seq<u8>)
    requires LF !in line && (line != [] ==> line[|line| - 1] != CR)
    ensures var skipped := line == [] || line[0] == '#' as int || line == COPY || line == CUT;
      ParseFileList(line + (if cr then [CR] else []) + [LF] + rest)
      == (if !skipped && PathOf(line).Some? then [PathOf(line).value] else []) + ParseFileList(rest)
  {
    hide Lines, PathOf, WithoutCr;
    var whole := line + if cr then [CR] else [];
    LinesSplit(whole, rest);
    WithoutCrIs(line, cr);
    var all := [line] + Lines(rest);
    assert all[1..] == Lines(rest);
  }

  lemma WithoutCrIs(line: seq<u8>, cr: bool)
    requires line != [] ==> line[|line| - 1] != CR
    ensures WithoutCr(line + if cr then [CR] else []) == line
  {
    assert line + [] == line && (line + [CR])[..|line|] == line;
  }

  /** Different lists are written differently. */
  lemma ListsAreDistinct(a: seq<seq<u8>>, b: seq<seq<u8>>)
    ensures ListOf(a) == ListOf(b) ==> a == b
  {
    FileListRoundTrip(a);
    FileListRoundTrip(b);
  }
}
