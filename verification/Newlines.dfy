/** The newline conversions of the two clipboard agents
    (windows/clipboard-agent/src/main.rs, linux/input-router/src/clipboard.rs). */
module Newlines {
  import opened Bytes

  const LF: u8 := 10
  const CR: u8 := 13

  /** Every CR LF replaced by LF, left to right. */
  function ToLf(s: seq<u8>): (t: seq<u8>)
    ensures |t| <= |s|
  {
    if s == [] then []
    else if |s| >= 2 && s[0] == CR && s[1] == LF then [LF] + ToLf(s[2..])
    else [s[0]] + ToLf(s[1..])
  }

  /** Every LF replaced by CR LF. */
  function ToCrlf(s: seq<u8>): seq<u8> {
    if s == [] then []
    else (if s[0] == LF then [CR, LF] else [s[0]]) + ToCrlf(s[1..])
  }

  /** What the Windows helper puts on its clipboard. */
  function ForWindows(s: seq<u8>): seq<u8> { ToCrlf(ToLf(s)) }

  ghost predicate HasCrlf(s: seq<u8>) {
    exists i :: 0 <= i < |s| - 1 && s[i] == CR && s[i + 1] == LF
  }

  ghost predicate HasCrCrlf(s: seq<u8>) {
    exists i :: 0 <= i < |s| - 2 && s[i] == CR && s[i + 1] == CR && s[i + 2] == LF
  }

  /** Every line feed follows a carriage return. */
  ghost predicate AllCrlf(s: seq<u8>) {
    forall i :: 0 <= i < |s| && s[i] == LF ==> i > 0 && s[i - 1] == CR
  }

  lemma CrlfStartsNoLf(s: seq<u8>)
    ensures ToCrlf(s) != [] ==> ToCrlf(s)[0] != LF
  {
  }

  /** Converting out and back gives every text back, carriage returns and CR LF
      included. */
  lemma {:induction false} LfInvertsCrlf(s: seq<u8>)
    ensures ToLf(ToCrlf(s)) == s
  {
    if s != [] {
      LfInvertsCrlf(s[1..]);
      CrlfStartsNoLf(s[1..]);
      var tail := ToCrlf(s[1..]);
      if s[0] == LF {
        assert ([CR, LF] + tail)[2..] == tail;
      } else {
        assert ([s[0]] + tail)[1..] == tail;
      }
    }
  }

  /** The Windows form is stable, and one conversion back undoes it. */
  lemma WindowsFormIsStable(s: seq<u8>)
    ensures ForWindows(ForWindows(s)) == ForWindows(s)
    ensures ToLf(ForWindows(s)) == ToLf(s)
  {
    LfInvertsCrlf(ToLf(s));
  }

  lemma {:induction false} LfUnchanged(s: seq<u8>)
    requires !HasCrlf(s)
    ensures ToLf(s) == s
  {
    if s != [] {
      assert !(|s| >= 2 && s[0] == CR && s[0 + 1] == LF);
      forall i | 0 <= i < |s[1..]| - 1 ensures !(s[1..][i] == CR && s[1..][i + 1] == LF) {
        assert s[1..][i] == s[i + 1];
        assert !(s[i + 1] == CR && s[i + 1 + 1] == LF);
      }
      LfUnchanged(s[1..]);
    }
  }

  lemma {:induction false} LfShortens(s: seq<u8>)
    requires HasCrlf(s)
    ensures |ToLf(s)| < |s|
  {
    var i :| 0 <= i < |s| - 1 && s[i] == CR && s[i + 1] == LF;
    if !(s[0] == CR && s[1] == LF) {
      assert s[1..][i - 1] == CR && s[1..][i - 1 + 1] == LF;
      LfShortens(s[1..]);
    }
  }

  /** A Linux text copied to Windows and back is unchanged exactly when it has no
      CR LF. */
  lemma LinuxRoundTripIff(s: seq<u8>)
    ensures ToLf(ForWindows(s)) == s <==> !HasCrlf(s)
  {
    WindowsFormIsStable(s);
    if HasCrlf(s) {
      LfShortens(s);
    } else {
      LfUnchanged(s);
    }
  }

  // ----- the other way round -----------------------------------------------------

  lemma {:induction false} CrlfIsAllCrlf(s: seq<u8>)
    ensures AllCrlf(ToCrlf(s))
  {
    if s != [] {
      CrlfIsAllCrlf(s[1..]);
      CrlfStartsNoLf(s[1..]);
    }
  }

  /** Restoring what the conversion to LF took out. */
  lemma {:induction false} CrlfInvertsLf(s: seq<u8>)
    requires AllCrlf(s)
    ensures ToCrlf(ToLf(s)) == s
  {
    if s != [] {
      assert s[0] != LF;
      if |s| >= 2 && s[0] == CR && s[1] == LF {
        assert AllCrlf(s[2..]);
        CrlfInvertsLf(s[2..]);
        assert ToLf(s)[1..] == ToLf(s[2..]);
        assert s == [CR, LF] + s[2..];
      } else {
        assert AllCrlf(s[1..]);
        CrlfInvertsLf(s[1..]);
        assert ToLf(s)[1..] == ToLf(s[1..]);
        assert s == [s[0]] + s[1..];
      }
    }
  }

  lemma {:induction false} CrlfLeavesACr(s: seq<u8>)
    ensures HasCrlf(s) ==> HasCrCrlf(ToCrlf(s))
  {
    if s != [] {
      CrlfLeavesACr(s[1..]);
      var t, tail := ToCrlf(s), ToCrlf(s[1..]);
      if |s| >= 2 && s[0] == CR && s[1] == LF {
        assert t[0] == CR && t[1] == CR && t[2] == LF;
      } else if HasCrlf(s) {
        var i :| 0 <= i < |s| - 1 && s[i] == CR && s[i + 1] == LF;
        assert s[1..][i - 1] == CR && s[1..][i - 1 + 1] == LF;
        var k :| 0 <= k < |tail| - 2 && tail[k] == CR && tail[k + 1] == CR && tail[k + 2] == LF;
        var d := |t| - |tail|;
        assert t[k + d] == CR && t[k + d + 1] == CR && t[k + d + 2] == LF;
      }
    }
  }

  lemma CrlfLater(s: seq<u8>)
    requires s != [] && HasCrlf(s[1..])
    ensures HasCrlf(s)
  {
    var k :| 0 <= k < |s[1..]| - 1 && s[1..][k] == CR && s[1..][k + 1] == LF;
    assert s[k + 1] == CR && s[k + 1 + 1] == LF;
  }

  lemma CrCrlfIn(s: seq<u8>, d: nat, i: nat)
    requires d <= i < |s| - 2 && s[i] == CR && s[i + 1] == CR && s[i + 2] == LF
    ensures HasCrCrlf(s[d..])
  {
    var k := i - d;
    assert s[d..][k] == CR && s[d..][k + 1] == CR && s[d..][k + 2] == LF;
  }

  lemma {:induction false} CrCrlfComesBack(s: seq<u8>)
    requires AllCrlf(s) && HasCrCrlf(s)
    ensures HasCrlf(ToLf(s))
  {
    hide HasCrlf;
    var i :| 0 <= i < |s| - 2 && s[i] == CR && s[i + 1] == CR && s[i + 2] == LF;
    var t, d := ToLf(s), if s[0] == CR && s[1] == LF then 2 else 1;
    assert t[1..] == ToLf(s[d..]);
    if i == 0 {
      CrThenLf(s);
    } else {
      assert AllCrlf(s[d..]);
      CrCrlfIn(s, d, i);
      CrCrlfComesBack(s[d..]);
      CrlfLater(t);
    }
  }

  lemma CrThenLf(s: seq<u8>)
    requires |s| >= 3 && s[0] == CR && s[1] == CR && s[2] == LF
    ensures HasCrlf(ToLf(s))
  {
    var u := s[1..];
    assert ToLf(s) == [CR] + ToLf(u) && ToLf(u) == [LF] + ToLf(u[2..]);
    assert ToLf(s)[0] == CR && ToLf(s)[0 + 1] == LF;
  }

  /** A Windows text copied to Linux and back, where Linux converts to LF and
      Windows normalises what it gets, is unchanged exactly when every line feed
      follows a carriage return and no CR LF follows another carriage return. */
  lemma WindowsRoundTripIff(s: seq<u8>)
    ensures ForWindows(ToLf(s)) == s <==> AllCrlf(s) && !HasCrCrlf(s)
  {
    var v := ToLf(s);
    if AllCrlf(s) {
      CrlfInvertsLf(s);
      CrlfLeavesACr(v);
      if HasCrCrlf(s) {
        CrCrlfComesBack(s);
      }
      if HasCrlf(v) {
        LfShortens(v);
        LfInvertsCrlf(ToLf(v));
      } else {
        LfUnchanged(v);
      }
    }
    CrlfIsAllCrlf(ToLf(v));
  }
}
