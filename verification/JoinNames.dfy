/** Trimming, and the join name a device gets when it sends none. */
module JoinNames {

  predicate IsSpace(c: char) { '\t' <= c <= '\r' || '\U{001C}' <= c <= ' ' }

  /** The ASCII characters that `str.isspace` accepts. */
  lemma SpaceCodes(c: char)
    ensures IsSpace(c) <==> c as int in {0x09, 0x0A, 0x0B, 0x0C, 0x0D, 0x1C, 0x1D, 0x1E, 0x1F, 0x20}
  {}

  predicate IsAlnum(c: char) { 'a' <= c <= 'z' || 'A' <= c <= 'Z' || '0' <= c <= '9' }

  predicate IsPunct(c: char) { c == '-' || c == '_' || c == '.' }

  function Trim(s: string, drop: char -> bool): string
    decreases |s|
  {
    if s == "" then s
    else if drop(s[0]) then Trim(s[1..], drop)
    else if drop(s[|s| - 1]) then Trim(s[..|s| - 1], drop)
    else s
  }

  lemma {:induction false} TrimTrims(s: string, drop: char -> bool)
    ensures Trimmed(Trim(s, drop), drop) && (forall c | c in Trim(s, drop) :: c in s)
    ensures Trimmed(s, drop) ==> Trim(s, drop) == s
    decreases |s|
  {
    if s != "" {
      if drop(s[0]) { TrimTrims(s[1..], drop); }
      else if drop(s[|s| - 1]) { TrimTrims(s[..|s| - 1], drop); }
    }
  }

  /** Only droppable characters go, and only from the ends. */
  lemma {:induction false} TrimCuts(s: string, drop: char -> bool)
    ensures exists i, j :: CutAt(s, drop, i, j)
    decreases |s|
  {
    if s != "" && drop(s[0]) {
      var t := s[1..];
      TrimCuts(t, drop);
      var i, j :| CutAt(t, drop, i, j);
      assert s[..i + 1] == [s[0]] + t[..i] && s[j + 1..] == t[j..] && s[i + 1..j + 1] == t[i..j];
      assert CutAt(s, drop, i + 1, j + 1);
    } else if s != "" && drop(s[|s| - 1]) {
      var t := s[..|s| - 1];
      TrimCuts(t, drop);
      var i, j :| CutAt(t, drop, i, j);
      assert s[..i] == t[..i] && s[j..] == t[j..] + [s[|s| - 1]] && s[i..j] == t[i..j];
      assert CutAt(s, drop, i, j);
    } else {
      assert s[0..|s|] == s && s[..0] == "" && s[|s|..] == "";
      assert CutAt(s, drop, 0, |s|);
    }
  }

  predicate CutAt(s: string, drop: char -> bool, i: int, j: int) {
    0 <= i <= j <= |s| && Trim(s, drop) == s[i..j] && AllDrop(s[..i], drop) && AllDrop(s[j..], drop)
  }

  predicate AllDrop(s: string, drop: char -> bool) { forall c | c in s :: drop(c) }

  predicate Trimmed(s: string, drop: char -> bool) {
    s == "" || (!drop(s[0]) && !drop(s[|s| - 1]))
  }

  /** `str.strip()` */
  function Strip(s: string): string { Trim(s, IsSpace) }

  function Clean(s: string): string {
    if s == "" then "" else [if IsAlnum(s[0]) || IsPunct(s[0]) then s[0] else '-'] + Clean(s[1..])
  }

  /** Runs of dashes become one dash. */
  function Squeeze(s: string): string {
    if |s| <= 1 then s
    else if s[0] == '-' && s[1] == '-' then Squeeze(s[1..])
    else [s[0]] + Squeeze(s[1..])
  }

  function Sanitize(s: string): string {
    var t := Trim(Squeeze(Clean(Strip(s))), IsPunct);
    if t == "" then "device" else t
  }

  predicate Plain(s: string) { forall c | c in s :: IsAlnum(c) || IsPunct(c) }

  lemma {:induction false} CleanIsPlain(s: string)
    ensures Plain(Clean(s)) && |Clean(s)| == |s|
    ensures forall i | 0 <= i < |s| :: Clean(s)[i] == if IsAlnum(s[i]) || IsPunct(s[i]) then s[i] else '-'
  {
    if s != "" { CleanIsPlain(s[1..]); }
  }

  /** Squeezing drops nothing but repeated dashes. */
  lemma {:induction false} SqueezeSingles(s: string)
    ensures forall c | c in Squeeze(s) :: c in s
    ensures s != "" ==> Squeeze(s) != "" && Squeeze(s)[0] == s[0]
    ensures SingleDashes(Squeeze(s))
  {
    if |s| > 1 { SqueezeSingles(s[1..]); }
  }

  /** Two dashes in a row come out as one would, wherever they stand. */
  lemma {:induction false} SqueezePair(a: string, b: string)
    ensures Squeeze(a + "--" + b) == Squeeze(a + "-" + b)
  {
    var two, one := a + "--" + b, a + "-" + b;
    if a == "" {
      assert two[1..] == one;
    } else {
      assert two[1..] == a[1..] + "--" + b && one[1..] == a[1..] + "-" + b && two[0] == one[0] && two[1] == one[1];
      SqueezePair(a[1..], b);
    }
  }

  predicate SingleDashes(s: string) { forall i | 0 <= i < |s| - 1 :: !(s[i] == '-' && s[i + 1] == '-') }

  lemma {:induction false} SqueezeFixed(s: string)
    requires SingleDashes(s)
    ensures Squeeze(s) == s
  {
    if |s| > 1 {
      assert SingleDashes(s[1..]) by {
        forall i | 0 <= i < |s[1..]| - 1 ensures !(s[1..][i] == '-' && s[1..][i + 1] == '-') {
          assert s[1..][i] == s[i + 1] && s[1..][i + 1] == s[i + 2];
        }
      }
      SqueezeFixed(s[1..]);
    }
  }

  /** A part of a join name as it may stand: letters, digits and marks, no mark at either end, no dash doubled. */
  predicate GoodPart(s: string) { s != "" && Plain(s) && Trimmed(s, IsPunct) && SingleDashes(s) }

  /** The letters and digits of a string, in order. */
  function Alnums(s: string): string {
    if s == "" then "" else (if IsAlnum(s[0]) then [s[0]] else "") + Alnums(s[1..])
  }

  lemma AlnumsEmpty()
    ensures Alnums("") == ""
  {}

  lemma AlnumsFirst(c: char, s: string)
    ensures Alnums([c] + s) == (if IsAlnum(c) then [c] else "") + Alnums(s)
  {
    assert ([c] + s)[1..] == s;
  }

  lemma {:induction false} AlnumsAppend(a: string, b: string)
    ensures Alnums(a + b) == Alnums(a) + Alnums(b)
  {
    hide IsAlnum, Alnums;
    if a == "" {
      AlnumsEmpty();
      assert a + b == b;
    } else {
      AlnumsAppend(a[1..], b);
      assert a + b == [a[0]] + (a[1..] + b);
      AlnumsFirst(a[0], a[1..] + b);
      AlnumsFirst(a[0], a[1..]);
      assert a == [a[0]] + a[1..];
    }
  }

  lemma {:induction false} NoAlnums(s: string, drop: char -> bool)
    requires AllDrop(s, drop) && forall c | drop(c) :: !IsAlnum(c)
    ensures Alnums(s) == ""
  {
    if s != "" { NoAlnums(s[1..], drop); }
  }

  lemma TrimAlnums(s: string, drop: char -> bool)
    requires forall c | drop(c) :: !IsAlnum(c)
    ensures Alnums(Trim(s, drop)) == Alnums(s)
  {
    TrimCuts(s, drop);
    var i, j :| CutAt(s, drop, i, j);
    assert s == s[..i] + s[i..j] + s[j..];
    AlnumsAppend(s[..i] + s[i..j], s[j..]);
    AlnumsAppend(s[..i], s[i..j]);
    NoAlnums(s[..i], drop);
    NoAlnums(s[j..], drop);
  }

  lemma {:induction false} CleanAlnums(s: string)
    ensures Alnums(Clean(s)) == Alnums(s)
  {
    if s != "" {
      CleanAlnums(s[1..]);
      assert Clean(s)[1..] == Clean(s[1..]);
    }
  }

  lemma {:induction false} SqueezeAlnums(s: string)
    ensures Alnums(Squeeze(s)) == Alnums(s)
  {
    if |s| > 1 {
      SqueezeAlnums(s[1..]);
      if !(s[0] == '-' && s[1] == '-') { assert Squeeze(s)[1..] == Squeeze(s[1..]); }
    }
  }

  lemma SanitizeIsPlain(s: string)
    ensures GoodPart(Sanitize(s))
  {
    hide Trim, Clean, Squeeze, SingleDashes, IsAlnum, IsPunct;
    var c := Clean(Strip(s));
    CleanIsPlain(Strip(s));
    SqueezeSingles(c);
    TrimTrims(Squeeze(c), IsPunct);
    TrimCuts(Squeeze(c), IsPunct);
    var i, j :| CutAt(Squeeze(c), IsPunct, i, j);
    SliceSingles(Squeeze(c), i, j);
    DeviceIsGood();
  }

  lemma DeviceIsGood()
    ensures GoodPart("device")
  {}

  lemma SliceSingles(s: string, i: nat, j: nat)
    requires i <= j <= |s| && SingleDashes(s)
    ensures SingleDashes(s[i..j])
  {
    forall k | 0 <= k < |s[i..j]| - 1 ensures !(s[i..j][k] == '-' && s[i..j][k + 1] == '-') {
      assert s[i..j][k] == s[i + k] && s[i..j][k + 1] == s[i + k + 1];
    }
  }

  /** Sanitizing keeps all letters and digits in order, and says "device" where there are none; a good part stays
      as it is. */
  lemma SanitizeKeeps(s: string)
    ensures Alnums(s) != "" ==> Alnums(Sanitize(s)) == Alnums(s)
    ensures Alnums(s) == "" ==> Sanitize(s) == "device"
    ensures GoodPart(s) ==> Sanitize(s) == s
  {
    var c := Clean(Strip(s));
    var t := Trim(Squeeze(c), IsPunct);
    TrimAlnums(s, IsSpace);
    CleanAlnums(Strip(s));
    SqueezeAlnums(c);
    TrimAlnums(Squeeze(c), IsPunct);
    TrimTrims(Squeeze(c), IsPunct);
    CleanIsPlain(Strip(s));
    SqueezeSingles(c);
    if t != "" { assert t[0] in t && IsAlnum(t[0]); }
    if GoodPart(s) { SanitizeFixed(s); }
  }

  lemma SanitizeFixed(s: string)
    requires GoodPart(s)
    ensures Sanitize(s) == s
  {
    hide Trim, Squeeze, SingleDashes;
    TrimTrims(s, IsSpace);
    assert s[0] in s && s[|s| - 1] in s;
    CleanIsPlain(s);
    assert Clean(s) == s;
    SqueezeFixed(s);
    TrimTrims(s, IsPunct);
  }

  function Take64(s: string): string { if |s| <= 64 then s else s[..64] }

  /** `derive_join_name` */
  function Derive(deviceName: string, deviceId: string): string {
    Take64(Sanitize(if deviceName == "" then deviceId else deviceName) + "-" + Sanitize(deviceId))
  }

  /** Neither empty nor longer than 64, and unchanged by stripping. */
  predicate GoodJoinName(j: string) {
    0 < |j| <= 64 && Trimmed(j, IsSpace)
  }

  /** A derived name is the two parts joined by a dash, cut at 64 characters; without a device name, the id is
      both parts. */
  lemma DerivedJoins(deviceName: string, deviceId: string)
    ensures var whole := Sanitize(if deviceName != "" then deviceName else deviceId) + "-" + Sanitize(deviceId);
      && Derive(deviceName, deviceId) <= whole
      && (|whole| <= 64 ==> Derive(deviceName, deviceId) == whole) && (|whole| > 64 ==> |Derive(deviceName, deviceId)| == 64)
  {}

  lemma DerivedIsGood(deviceName: string, deviceId: string)
    ensures GoodJoinName(Derive(deviceName, deviceId))
  {
    var first := if deviceName == "" then deviceId else deviceName;
    SanitizeIsPlain(first);
    SanitizeIsPlain(deviceId);
    var whole := Sanitize(first) + "-" + Sanitize(deviceId);
    assert Plain(whole);
    var j := Derive(deviceName, deviceId);
    assert j[0] in whole && j[|j| - 1] in whole;
  }
}
