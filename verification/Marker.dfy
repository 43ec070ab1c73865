// The description marker: how an object created by this tool is recognised on
// the target, and how its own text is recovered for comparison. A text is the
// sequence of its bytes, as the program's lengths and slices see it.
module Marker {

  // --- strings ---------------------------------------------------------------

  predicate IsSpace(c: char) {
    c in "\t\n\r " || c == 11 as char || c == 12 as char
  }

  function TrimLeft(s: string): string {
    if s != "" && IsSpace(s[0]) then TrimLeft(s[1..]) else s
  }

  function TrimRight(s: string): string {
    if s != "" && IsSpace(s[|s| - 1]) then TrimRight(s[..|s| - 1]) else s
  }

  function Trim(s: string): string { TrimRight(TrimLeft(s)) }

  predicate OccursAt(s: string, sub: string, i: nat) {
    i + |sub| <= |s| && forall k :: 0 <= k < |sub| ==> s[i + k] == sub[k]
  }

  predicate Contains(s: string, sub: string) {
    exists i: nat :: i <= |s| && OccursAt(s, sub, i)
  }

  // The first occurrence at or after i, or -1.
  function IndexFrom(s: string, sub: string, i: nat): (r: int)
    requires i <= |s|
    ensures r == -1 || i <= r <= |s|
    ensures r >= 0 ==> OccursAt(s, sub, r) && forall j :: i <= j < r ==> !OccursAt(s, sub, j)
    ensures r == -1 ==> forall j :: i <= j <= |s| ==> !OccursAt(s, sub, j)
    decreases |s| - i
  {
    if OccursAt(s, sub, i) then i
    else if i == |s| then -1
    else IndexFrom(s, sub, i + 1)
  }

  // --- the marker ------------------------------------------------------------

  const PREFIX := "[ise2ise "
  const MAX_DESCRIPTION := 256

  // A calendar day printed as YYYY-MM-DD.
  type Day = s: string | |s| == 10 && '[' !in s && ']' !in s witness "2006-01-02"

  function Stamp(day: Day): string { PREFIX + day + "]" }

  function Tag(desc: string, day: Day): string {
    var marker := Stamp(day);
    if Contains(desc, PREFIX) then desc
    else
      var out := if desc == "" then marker else desc + " " + marker;
      if |out| <= MAX_DESCRIPTION then out
      else
        var cut := MAX_DESCRIPTION - |marker| - 1;
        if cut < 0 then marker else Trim(desc[..cut]) + " " + marker
  }

  function Strip(desc: string): string {
    var i := IndexFrom(desc, PREFIX, 0);
    if i < 0 then desc
    else
      var end := IndexFrom(desc[i..], "]", 0);
      if end < 0 then Trim(desc[..i]) else Trim(desc[..i] + desc[i + end + 1..])
  }

  // The longest text that still leaves room for the marker, and what of a
  // description is put in front of the marker.
  const ROOM := 235

  function Front(desc: string): string {
    if |desc| <= ROOM then desc else Trim(desc[..ROOM])
  }

  // --- trimming --------------------------------------------------------------

  // s[a..b] is what trimming s leaves.
  ghost predicate Core(s: string, a: nat, b: nat) {
    && a <= b <= |s|
    && (forall i :: 0 <= i < a || b <= i < |s| ==> IsSpace(s[i]))
    && (a < b ==> !IsSpace(s[a]) && !IsSpace(s[b - 1]))
  }

  lemma {:induction false} TrimLeftIs(s: string, a: nat)
    requires a <= |s| && (forall i :: 0 <= i < a ==> IsSpace(s[i])) && (a < |s| ==> !IsSpace(s[a]))
    ensures TrimLeft(s) == s[a..]
  {
    if a > 0 { TrimLeftIs(s[1..], a - 1); }
  }

  lemma {:induction false} TrimRightIs(s: string, b: nat)
    requires b <= |s| && (forall i :: b <= i < |s| ==> IsSpace(s[i])) && (0 < b ==> !IsSpace(s[b - 1]))
    ensures TrimRight(s) == s[..b]
  {
    if b < |s| { TrimRightIs(s[..|s| - 1], b); }
  }

  lemma TrimIs(s: string, a: nat, b: nat)
    requires Core(s, a, b)
    ensures Trim(s) == s[a..b]
  {
    if a == b {
      TrimLeftIs(s, |s|);
      assert s[|s|..] == "" == s[a..b];
    } else {
      TrimLeftIs(s, a);
      TrimRightIs(s[a..], b - a);
      assert s[a..][..b - a] == s[a..b];
    }
  }

  lemma CoreOf(s: string) returns (a: nat, b: nat)
    ensures Core(s, a, b) && Trim(s) == s[a..b]
  {
    a := 0;
    while a < |s| && IsSpace(s[a])
      invariant a <= |s| && forall i :: 0 <= i < a ==> IsSpace(s[i])
    {
      a := a + 1;
    }
    b := |s|;
    while b > a && IsSpace(s[b - 1])
      invariant a <= b <= |s| && forall i :: b <= i < |s| ==> IsSpace(s[i])
    {
      b := b - 1;
    }
    TrimIs(s, a, b);
  }

  // Spaces around a text do not show once it is trimmed.
  lemma TrimPart(s: string, from: nat, to: nat)
    requires from <= to <= |s|
    requires forall i :: 0 <= i < from || to <= i < |s| ==> IsSpace(s[i])
    ensures Trim(s) == Trim(s[from..to])
  {
    var p := s[from..to];
    var a, b := CoreOf(p);
    forall i | 0 <= i < from + a || from + b <= i < |s|
      ensures IsSpace(s[i])
    {
      if from <= i < to { assert p[i - from] == s[i]; }
    }
    TrimIs(s, from + a, from + b);
    forall k | 0 <= k < b - a
      ensures s[from + a..from + b][k] == p[a..b][k]
    {
      assert p[a..b][k] == p[a + k] == s[from + (a + k)];
    }
    assert s[from + a..from + b] == p[a..b];
  }

  // Cutting text other than spaces off the end shortens what is left.
  lemma TrimShortened(s: string, to: nat, at: nat)
    requires to <= at < |s| && !IsSpace(s[at])
    ensures |Trim(s[..to])| < |Trim(s)|
  {
    var a, b := CoreOf(s);
    var c, d := CoreOf(s[..to]);
    assert a <= at < b;
    if c < d {
      assert s[..to][c] == s[c];
      assert a <= c && d <= to;
    }
  }

  // --- where the marker sits -------------------------------------------------

  lemma StampShape(day: Day)
    ensures |Stamp(day)| == 20 && OccursAt(Stamp(day), PREFIX, 0)
    ensures IndexFrom(Stamp(day), "]", 0) == 19
  {
    var m := Stamp(day);
    assert forall j :: 0 <= j < 9 ==> m[j] == PREFIX[j] != ']';
    assert forall j :: 9 <= j < 19 ==> m[j] == day[j - 9];
    assert m[19] == ']';
    assert OccursAt(m, "]", 19);
    forall j | 0 <= j < 19
      ensures !OccursAt(m, "]", j)
    {
      assert m[j + 0] != "]"[0];
    }
  }

  // The prefix starts with its only bracket, so an occurrence cannot reach
  // across the start of the marker: the first prefix is the marker's own.
  lemma FirstOccurrence(text: string, p: string, m: string)
    requires |p| > 0 && p[0] !in p[1..] && OccursAt(m, p, 0)
    requires !Contains(text, p)
    ensures IndexFrom(text + m, p, 0) == |text|
  {
    var s := text + m;
    assert OccursAt(s, p, |text|);
    forall j: nat | j < |text|
      ensures !OccursAt(s, p, j)
    {
      if j + |p| <= |text| {
        assert !OccursAt(text, p, j);
        var k :| 0 <= k < |p| && text[j + k] != p[k];
        assert s[j + k] != p[k];
      } else {
        var k := |text| - j;
        assert p[1..][k - 1] == p[k];
        assert s[j + k] == m[0 + 0] == p[0] != p[k];
      }
    }
  }

  lemma PrefixShape()
    ensures |PREFIX| == 9 && PREFIX[0] !in PREFIX[1..]
  {
  }

  lemma StripsTo(text: string, day: Day)
    requires !Contains(text, PREFIX)
    ensures Strip(text + Stamp(day)) == Trim(text)
  {
    var m := Stamp(day);
    var s := text + m;
    PrefixShape();
    StampShape(day);
    FirstOccurrence(text, PREFIX, m);
    assert s[|text|..] == m;
    assert s[..|text|] + s[|text| + 20..] == text;
  }

  // --- main results ----------------------------------------------------------

  // Tagging always leaves the marker, and tagging again changes nothing.
  lemma TagMarks(desc: string, day: Day)
    ensures Contains(Tag(desc, day), PREFIX)
  {
    var m := Stamp(day);
    var out := Tag(desc, day);
    StampShape(day);
    if !Contains(desc, PREFIX) {
      assert out[|out| - 20..] == m;
      forall k | 0 <= k < 9
        ensures out[|out| - 20 + k] == PREFIX[k]
      {
        assert m[0 + k] == PREFIX[k];
      }
      assert OccursAt(out, PREFIX, |out| - 20);
    }
  }

  lemma TagIdempotent(desc: string, day: Day, later: Day)
    ensures Tag(Tag(desc, day), later) == Tag(desc, day)
  {
    TagMarks(desc, day);
  }

  // The tagged text of an unmarked description fits the shortest limit ISE has.
  lemma TagFits(desc: string, day: Day)
    requires !Contains(desc, PREFIX)
    ensures |Tag(desc, day)| <= MAX_DESCRIPTION
  {
    StampShape(day);
    if |desc| > ROOM {
      var a, b := CoreOf(desc[..ROOM]);
    }
  }

  lemma TagIs(desc: string, day: Day)
    requires !Contains(desc, PREFIX) && desc != ""
    ensures Tag(desc, day) == Front(desc) + " " + Stamp(day)
  {
    StampShape(day);
  }

  // An unmarked text is marked at its end, cut first when it is too long.
  lemma TagSays(desc: string, day: Day)
    requires !Contains(desc, "[ise2ise ")
    ensures var m := "[ise2ise " + day + "]";
            Tag(desc, day) == if desc == "" then m
                              else if |desc| <= 235 then desc + " " + m
                              else Trim(desc[..235]) + " " + m
  {
    hide Contains, Trim;
  }

  // Stripping takes the first marker out, up to the next bracket, or to the end when
  // there is none, and trims what is left; an unmarked text it leaves alone.
  lemma StripSays(a: string, rest: string)
    requires forall j: nat :: j < |a| ==> !OccursAt(a + "[ise2ise " + rest, "[ise2ise ", j)
    ensures var desc := a + "[ise2ise " + rest;
            && (']' !in rest ==> Strip(desc) == Trim(a))
            && (forall i :: 0 <= i < |rest| && rest[i] == ']' && ']' !in rest[..i] ==>
                  Strip(desc) == Trim(a + rest[i + 1..]))
  {
    hide Trim;
    var desc := a + "[ise2ise " + rest;
    var marked := PREFIX + rest;
    assert desc == a + marked;
    assert OccursAt(desc, PREFIX, |a|);
    assert IndexFrom(desc, PREFIX, 0) == |a|;
    assert desc[..|a|] == a && desc[|a|..] == marked;
    forall i | 0 <= i < |rest| && rest[i] == ']' && ']' !in rest[..i]
      ensures Strip(desc) == Trim(a + rest[i + 1..])
    {
      BracketAt(rest, i);
      assert desc[|a| + (9 + i) + 1..] == rest[i + 1..];
    }
    if ']' !in rest { NoBracket(rest); }
  }

  lemma BracketIs(s: string, j: nat)
    ensures OccursAt(s, "]", j) <==> j < |s| && s[j] == ']'
  {
    var bracket := "]";
    assert |bracket| == 1 && bracket[0] == ']';
    if OccursAt(s, bracket, j) { assert s[j + 0] == bracket[0]; }
  }

  lemma NoBracketInPrefix(rest: string, j: nat)
    requires j < 9 + |rest|
    ensures (PREFIX + rest)[j] == if j < 9 then PREFIX[j] else rest[j - 9]
    ensures j < 9 ==> PREFIX[j] != ']'
  {
    PrefixHasNoBracket();
    PrefixShape();
    assert j >= 9 ==> (PREFIX + rest)[j] == rest[j - |PREFIX|];
  }

  lemma PrefixHasNoBracket()
    ensures forall j :: 0 <= j < 9 ==> PREFIX[j] != ']'
  {
    assert PREFIX == "[ise2ise " && PREFIX[0] == '[' && PREFIX[1] == 'i' && PREFIX[2] == 's' && PREFIX[3] == 'e';
    assert PREFIX[4] == '2' && PREFIX[5] == 'i' && PREFIX[6] == 's' && PREFIX[7] == 'e' && PREFIX[8] == ' ';
  }

  lemma BracketAt(rest: string, i: nat)
    requires i < |rest| && rest[i] == ']' && ']' !in rest[..i]
    ensures IndexFrom(PREFIX + rest, "]", 0) == 9 + i
  {
    hide OccursAt;
    var s := PREFIX + rest;
    BracketIs(s, 9 + i);
    forall j: nat | j < 9 + i
      ensures !OccursAt(s, "]", j)
    {
      BracketIs(s, j);
      NoBracketInPrefix(rest, j);
      assert j >= 9 ==> rest[j - 9] in rest[..i];
    }
  }

  lemma NoBracket(rest: string)
    requires ']' !in rest
    ensures IndexFrom(PREFIX + rest, "]", 0) == -1
  {
    hide OccursAt;
    var s := PREFIX + rest;
    forall j: nat
      ensures !OccursAt(s, "]", j)
    {
      BracketIs(s, j);
      if j < |s| {
        NoBracketInPrefix(rest, j);
        assert j >= 9 ==> rest[j - 9] in rest;
      }
    }
  }

  lemma UnmarkedStays(desc: string)
    requires !Contains(desc, "[ise2ise ")
    ensures Strip(desc) == desc
  {
    hide Trim;
  }

  lemma TrimAppended(s: string)
    ensures Trim(s + " ") == Trim(s)
  {
    TrimPart(s + " ", 0, |s|);
    assert (s + " ")[0..|s|] == s;
  }

  lemma TrimFront(desc: string)
    ensures Trim(Front(desc)) == Trim(if |desc| <= ROOM then desc else desc[..ROOM])
  {
    if |desc| > ROOM {
      var c := desc[..ROOM];
      var a, b := CoreOf(c);
      TrimPart(c, a, b);
    }
  }

  // What stripping gives back after tagging.
  lemma StripTag(desc: string, day: Day)
    requires !Contains(desc, PREFIX) && !Contains(Front(desc) + " ", PREFIX)
    ensures Strip(Tag(desc, day)) == Trim(Front(desc))
  {
    var m := Stamp(day);
    if desc == "" {
      assert "" + m == m == Tag("", day) by { StampShape(day); }
      StripsTo("", day);
    } else {
      TagIs(desc, day);
      StripsTo(Front(desc) + " ", day);
      TrimAppended(Front(desc));
    }
  }

  // A text that ends in the prefix less its space loses that ending: the space
  // in front of the marker completes a second prefix.
  lemma StripTagLoses(desc: string, day: Day)
    requires !Contains(desc, PREFIX) && Contains(Front(desc) + " ", PREFIX)
    ensures |Strip(Tag(desc, day))| < |Trim(Front(desc))|
  {
    var f := Front(desc);
    PrefixShape();
    StampShape(day);
    TagIs(desc, day);
    var i: nat :| i <= |f + " "| && OccursAt(f + " ", PREFIX, i);
    var r := FirstAcross(desc, f + " " + Stamp(day), i);
    BracketAfter(f, day, r);
    WithoutAcross(f, Stamp(day), r);
    TrimShortened(f, r, r);
  }

  lemma WithoutAcross(f: string, m: string, r: nat)
    requires |m| == 20 && r + 8 == |f|
    ensures (f + " " + m)[..r] + (f + " " + m)[r + 29..] == f[..r]
  {
    assert (f + " " + m)[r + 29..] == "";
  }

  // The completed prefix is the first one, and it ends at the added space.
  lemma FirstAcross(desc: string, s: string, i: nat) returns (r: nat)
    requires !Contains(desc, PREFIX)
    requires Front(desc) + " " <= s
    requires OccursAt(Front(desc) + " ", PREFIX, i)
    ensures r < |Front(desc)| && IndexFrom(s, PREFIX, 0) == r
    ensures r == |Front(desc)| - 8 && Front(desc)[r] == '['
  {
    var f := Front(desc);
    FrontUnmarked(desc);
    PrefixShape();
    if i + 9 <= |f| {
      forall k | 0 <= k < 9
        ensures f[i + k] == PREFIX[k]
      {
        assert (f + " ")[i + k] == PREFIX[k];
      }
      assert OccursAt(f, PREFIX, i);
      assert false;
    }
    r := i;
    forall k | 0 <= k < 9
      ensures s[i + k] == PREFIX[k]
    {
      assert (f + " ")[i + k] == PREFIX[k];
    }
    assert OccursAt(s, PREFIX, i);
    forall j: nat | j < i
      ensures !OccursAt(s, PREFIX, j)
    {
      assert !OccursAt(f, PREFIX, j);
      var k :| 0 <= k < 9 && f[j + k] != PREFIX[k];
      assert s[j + k] == (f + " ")[j + k] == f[j + k];
    }
    assert (f + " ")[i + 0] == PREFIX[0] == '[';
  }

  lemma FrontUnmarked(desc: string)
    requires !Contains(desc, PREFIX)
    ensures !Contains(Front(desc), PREFIX)
  {
    if |desc| > ROOM {
      var a, b := CoreOf(desc[..ROOM]);
      var f := desc[..ROOM][a..b];
      forall i: nat | i + |PREFIX| <= |f|
        ensures !OccursAt(f, PREFIX, i)
      {
        assert !OccursAt(desc, PREFIX, a + i);
        var k :| 0 <= k < |PREFIX| && desc[a + i + k] != PREFIX[k];
        assert f[i + k] == desc[a + i + k];
      }
    }
  }

  // The first closing bracket after that prefix is the marker's last byte.
  lemma BracketAfter(f: string, day: Day, r: nat)
    requires r + 8 == |f| && OccursAt(f + " ", PREFIX, r)
    ensures IndexFrom((f + " " + Stamp(day))[r..], "]", 0) == 28
  {
    var m := Stamp(day);
    var t := (f + " " + m)[r..];
    StampShape(day);
    assert forall k :: 0 <= k < 9 ==> t[k] == (f + " ")[r + k] == PREFIX[k] != ']';
    forall j | 9 <= j <= 28
      ensures t[j] == m[j - 9]
    {
    }
    assert OccursAt(m, "]", 19) && m[19 + 0] == "]"[0];
    assert OccursAt(t, "]", 28);
    forall j | 0 <= j < 28
      ensures !OccursAt(t, "]", j)
    {
      if j >= 9 {
        assert !OccursAt(m, "]", j - 9);
        assert m[j - 9 + 0] != "]"[0];
      }
      assert t[j + 0] != "]"[0];
    }
  }

  // The exact condition for an unmarked description to come back, up to the
  // spaces around it: nothing but spaces is cut, and what is kept does not end
  // in the prefix less its space.
  lemma StripTagExact(desc: string, day: Day)
    requires !Contains(desc, PREFIX)
    ensures Strip(Tag(desc, day)) == Trim(desc) <==>
            && !Contains(Front(desc) + " ", PREFIX)
            && forall i :: ROOM <= i < |desc| ==> IsSpace(desc[i])
  {
    TrimFront(desc);
    if i :| ROOM <= i < |desc| && !IsSpace(desc[i]) {
      TrimShortened(desc, ROOM, i);
    } else if |desc| > ROOM {
      TrimPart(desc, 0, ROOM);
      assert desc[0..ROOM] == desc[..ROOM];
    }
    if Contains(Front(desc) + " ", PREFIX) {
      StripTagLoses(desc, day);
    } else {
      StripTag(desc, day);
    }
  }

  // A text that ends in the prefix less its space runs into the marker: stripping
  // takes its end with it.
  lemma EndingInPrefixIsLost(day: Day)
    ensures var desc := "wired [ise2ise";
            && !Contains(desc, PREFIX) && Trim(desc) == desc && Contains(Front(desc) + " ", PREFIX)
            && Strip(Tag(desc, day)) != Trim(desc)
  {
    var desc := "wired [ise2ise";
    forall i: nat | i <= |desc|
      ensures !OccursAt(desc, PREFIX, i)
    {
      if i + 9 <= |desc| { assert desc[i + 0] != PREFIX[0]; }
    }
    assert OccursAt(desc + " ", PREFIX, 6);
    TrimIs(desc, 0, |desc|);
    assert desc[0..|desc|] == desc;
    StripTagLoses(desc, day);
  }
}
