// What a column's label is, when two labels are the same, and which columns carry
// a secret, said of the text of the header alone.
module Labels {
  import opened Segments
  import opened Objects
  import opened Translate
  import Marker

  // --- the label -------------------------------------------------------------------------

  ghost predicate AllSpace(s: string) { forall c :: c in s ==> Marker.IsSpace(c) }

  // Trimming takes the spaces at both ends and nothing else.
  lemma TrimmedIs(s: string) returns (a: string, b: string)
    ensures s == a + Marker.Trim(s) + b && AllSpace(a) && AllSpace(b)
    ensures var t := Marker.Trim(s);
            t != "" ==> !Marker.IsSpace(t[0]) && !Marker.IsSpace(t[|t| - 1])
  {
    hide Marker.IsSpace, Marker.Trim;
    var i, j := Marker.CoreOf(s);
    a, b := s[..i], s[j..];
    assert s == a + s[i..j] + b;
  }

  lemma Between(a: string, s: string, b: string)
    requires AllSpace(a) && AllSpace(b) && s != "" && !Marker.IsSpace(s[0]) && !Marker.IsSpace(s[|s| - 1])
    ensures Marker.Trim(a + s + b) == s
  {
    hide Marker.IsSpace, Marker.Trim;
    var t := a + s + b;
    assert forall i :: 0 <= i < |a| ==> t[i] == a[i] && a[i] in a;
    assert forall i :: |a| + |s| <= i < |t| ==> t[i] == b[i - |a| - |s|] && t[i] in b;
    Marker.TrimIs(t, |a|, |a| + |s|);
    assert t[|a|..|a| + |s|] == s;
  }

  // A word at the front stays at the front.
  lemma FrontKept(gap: string, w: string, rest: string)
    requires AllSpace(gap) && w != "" && forall c :: c in w ==> !Marker.IsSpace(c)
    ensures w <= Marker.Trim(gap + w + rest)
  {
    hide Marker.IsSpace, Marker.Trim;
    var s := gap + w + rest;
    assert forall x :: 0 <= x < |gap| ==> s[x] == gap[x] && gap[x] in gap;
    var i, j := Marker.CoreOf(s);
    assert s[|gap|] == w[0] && w[0] in w && s[|gap| + |w| - 1] == w[|w| - 1] && w[|w| - 1] in w;
    assert i == |gap|;
    assert s[i..j] == s[i..][..j - i];
    assert s[i..] == w + rest;
    assert s[i..j][..|w|] == w;
  }

  // The part begins, past its spaces, with one of the six type words.
  ghost predicate NamesType(part: string) {
    exists w, rest, gap ::
      && w in ["String", "Boolean", "Integer", "Enumeration", "Subnets", "Date"]
      && part == gap + w + rest && AllSpace(gap)
  }

  lemma TypeStarts(part: string)
    ensures NamesType(part) <==> StartsType(Marker.Trim(part))
  {
    var t := Marker.Trim(part);
    var a, b := TrimmedIs(part);
    if StartsType(t) {
      var w :| w in TYPE_TOKENS && w <= t;
      assert part == a + w + (t[|w|..] + b);
    }
    if NamesType(part) {
      var w, rest, gap :| w in ["String", "Boolean", "Integer", "Enumeration", "Subnets", "Date"]
                          && part == gap + w + rest && AllSpace(gap);
      WordIsNoSpace(w);
      FrontKept(gap, w, rest);
      assert w in TYPE_TOKENS && w <= t;
    }
  }

  lemma WordIsNoSpace(w: string)
    requires w in TYPE_TOKENS
    ensures w != "" && forall c :: c in w ==> !Marker.IsSpace(c)
  {
    assert forall i :: 0 <= i < |w| ==> !Marker.IsSpace(w[i]);
  }

  lemma {:induction false} BeforeTypeIs(parts: seq<string>, k: nat)
    requires k <= |parts| && forall j :: 0 <= j < k ==> !NamesType(parts[j])
    requires k < |parts| ==> NamesType(parts[k])
    ensures BeforeType(parts) == if k < |parts| then Some(parts[..k]) else None
  {
    hide NamesType, StartsType;
    if parts != [] {
      TypeStarts(parts[0]);
      if k > 0 {
        BeforeTypeIs(parts[1..], k - 1);
        assert k < |parts| ==> [parts[0]] + parts[1..][..k - 1] == parts[..k];
      }
    }
  }

  // A header, with or without a byte order mark before it, says its label and then,
  // from the first part that names a type on, its type. A header that names no type
  // is its own label.
  lemma LabelIs(parts: seq<string>, k: nat, header: string)
    requires |parts| > 0 && Plain(parts, ':') && k <= |parts|
    requires forall j :: 0 <= j < k ==> !NamesType(parts[j])
    requires k < |parts| ==> NamesType(parts[k])
    requires header == BOM + Join(parts, ':') || (header == Join(parts, ':') && !(BOM <= header))
    ensures ColumnLabel(header) == if k < |parts| then Join(parts[..k], ':') else header
  {
    hide NamesType, Split, BeforeType;
    assert TrimBom(header) == Join(parts, ':');
    SplitJoin(parts, ':');
    BeforeTypeIs(parts, k);
  }

  // Every header is one of these.
  lemma HeaderIs(header: string) returns (parts: seq<string>, k: nat)
    ensures |parts| > 0 && Plain(parts, ':') && k <= |parts|
    ensures forall j :: 0 <= j < k ==> !NamesType(parts[j])
    ensures k < |parts| ==> NamesType(parts[k])
    ensures header == BOM + Join(parts, ':') || (header == Join(parts, ':') && !(BOM <= header))
  {
    hide NamesType, Split, Join;
    parts := Split(TrimBom(header), ':');
    SplitIsPlain(TrimBom(header), ':');
    JoinSplit(TrimBom(header), ':');
    if BOM <= header { assert header == BOM + header[|BOM|..]; }
    k := 0;
    while k < |parts| && !NamesType(parts[k])
      invariant k <= |parts| && forall j :: 0 <= j < k ==> !NamesType(parts[j])
    {
      k := k + 1;
    }
  }

  // --- when two labels are the same ---------------------------------------------------------

  // The words with these gaps around them.
  function Spelled(words: seq<string>, gaps: seq<string>): string
    requires |gaps| == |words| + 1
  {
    if words == [] then gaps[0] else gaps[0] + words[0] + Spelled(words[1..], gaps[1..])
  }

  ghost predicate NoSpace(s: string) { forall c :: c in s ==> !Marker.IsSpace(c) }

  // Words without spaces; between any two, at least one.
  ghost predicate Wordly(words: seq<string>, gaps: seq<string>) {
    && |gaps| == |words| + 1
    && (forall i :: 0 <= i < |words| ==> words[i] != "" && NoSpace(words[i]))
    && (forall i :: 0 <= i < |gaps| ==> AllSpace(gaps[i]))
    && (forall i :: 0 < i < |words| ==> gaps[i] != "")
  }

  ghost predicate HasWords(s: string, words: seq<string>) {
    exists gaps :: Wordly(words, gaps) && s == Spelled(words, gaps)
  }

  lemma {:induction false} GapSkipped(gap: string, s: string)
    requires AllSpace(gap)
    ensures Words(gap + s) == Words(s)
  {
    if gap == "" {
      assert gap + s == s;
    } else {
      assert gap[0] in gap && (gap + s)[1..] == gap[1..] + s;
      GapSkipped(gap[1..], s);
    }
  }

  lemma {:induction false} WordRead(word: string, s: string)
    requires word != "" && NoSpace(word) && (s == "" || Marker.IsSpace(s[0]))
    ensures Words(word + s) == [word] + Words(s)
  {
    var t := word + s;
    assert word[0] in word && t[1..] == word[1..] + s;
    if |word| == 1 {
      assert word == [word[0]] && t[1..] == s;
    } else {
      assert word[1] in word;
      WordRead(word[1..], s);
      assert [word[0]] + word[1..] == word;
    }
  }

  lemma {:induction false} WordsOfSpelled(words: seq<string>, gaps: seq<string>)
    requires Wordly(words, gaps)
    ensures Words(Spelled(words, gaps)) == words
  {
    hide Words, Marker.IsSpace;
    if words == [] {
      GapSkipped(gaps[0], "");
      NoWords();
      assert gaps[0] + "" == gaps[0];
    } else {
      var rest := Spelled(words[1..], gaps[1..]);
      assert Wordly(words[1..], gaps[1..]);
      WordsOfSpelled(words[1..], gaps[1..]);
      GapSkipped(gaps[0], words[0] + rest);
      assert gaps[0] + words[0] + rest == gaps[0] + (words[0] + rest);
      if rest != "" { assert gaps[1] != "" ==> gaps[1][0] in gaps[1]; }
      WordRead(words[0], rest);
      assert [words[0]] + words[1..] == words;
    }
  }

  lemma NoWords()
    ensures Words("") == []
  {
  }

  // Every text has words: what its runs of spaces leave between them.
  lemma {:induction false} TextHasWords(s: string)
    ensures HasWords(s, Words(s))
  {
    hide Marker.IsSpace;
    var ws := Words(s);
    if s == "" {
      assert Wordly([], [""]) && Spelled([], [""]) == "";
    } else {
      var c, rest := s[0], s[1..];
      assert s == [c] + rest;
      TextHasWords(rest);
      var gaps :| Wordly(Words(rest), gaps) && rest == Spelled(Words(rest), gaps);
      if Marker.IsSpace(c) {
        OneMoreSpace(c, Words(rest), gaps);
      } else if |s| > 1 && !Marker.IsSpace(s[1]) {
        FirstIsWord(rest, Words(rest), gaps);
        LongerWord(c, Words(rest), gaps);
      } else {
        NewWord(c, Words(rest), gaps);
      }
    }
  }

  lemma OneMoreSpace(c: char, words: seq<string>, gaps: seq<string>)
    requires Wordly(words, gaps) && Marker.IsSpace(c)
    ensures HasWords([c] + Spelled(words, gaps), words)
  {
    hide Marker.IsSpace;
    var more := gaps[0 := [c] + gaps[0]];
    assert more[1..] == gaps[1..];
    assert Wordly(words, more);
    assert Spelled(words, more) == [c] + Spelled(words, gaps);
  }

  lemma FirstIsWord(s: string, words: seq<string>, gaps: seq<string>)
    requires Wordly(words, gaps) && s == Spelled(words, gaps) && s != "" && !Marker.IsSpace(s[0])
    ensures words != [] && gaps[0] == ""
  {
    hide Marker.IsSpace;
    assert forall x :: 0 <= x < |gaps[0]| ==> s[x] == gaps[0][x] && gaps[0][x] in gaps[0];
  }

  lemma LongerWord(c: char, words: seq<string>, gaps: seq<string>)
    requires Wordly(words, gaps) && words != [] && gaps[0] == "" && !Marker.IsSpace(c)
    ensures HasWords([c] + Spelled(words, gaps), [[c] + words[0]] + words[1..])
  {
    hide Marker.IsSpace;
    var more := [[c] + words[0]] + words[1..];
    assert more[1..] == words[1..];
    assert Wordly(more, gaps);
    assert Spelled(more, gaps) == [c] + Spelled(words, gaps);
  }

  lemma NewWord(c: char, words: seq<string>, gaps: seq<string>)
    requires Wordly(words, gaps) && !Marker.IsSpace(c)
    requires Spelled(words, gaps) == "" || Marker.IsSpace(Spelled(words, gaps)[0])
    ensures HasWords([c] + Spelled(words, gaps), [[c]] + words)
  {
    hide Marker.IsSpace;
    var s := Spelled(words, gaps);
    var ws, gs := [[c]] + words, [""] + gaps;
    assert ws[1..] == words && gs[1..] == gaps;
    assert words != [] ==> words[0][0] in words[0] && s[|gaps[0]|] == words[0][0];
    assert forall i :: 1 < i < |ws| ==> gs[i] == gaps[i - 1];
    assert Wordly(ws, gs);
    assert Spelled(ws, gs) == [c] + s;
  }

  // A text has no other words.
  lemma OneReading(s: string, words: seq<string>)
    ensures HasWords(s, words) <==> words == Words(s)
  {
    hide Words, Spelled;
    TextHasWords(s);
    if gaps :| Wordly(words, gaps) && s == Spelled(words, gaps) {
      WordsOfSpelled(words, gaps);
    }
  }

  lemma WordsJoinBack(s: string)
    ensures Words(Join(Words(s), ' ')) == Words(s)
  {
    hide Words, Marker.IsSpace;
    var ws := Words(s);
    TextHasWords(s);
    var gaps :| Wordly(ws, gaps) && s == Spelled(ws, gaps);
    JoinedWords(ws, gaps);
    OneReading(Join(ws, ' '), ws);
  }

  lemma {:induction false} JoinedWords(words: seq<string>, gaps: seq<string>)
    requires Wordly(words, gaps)
    ensures HasWords(Join(words, ' '), words)
  {
    if words == [] {
      assert Wordly([], [""]) && Spelled([], [""]) == "";
    } else if |words| == 1 {
      var gs := ["", ""];
      assert Spelled([], gs[1..]) == "" && Spelled(words, gs) == words[0];
      assert Wordly(words, gs);
    } else {
      assert Wordly(words[1..], gaps[1..]);
      JoinedWords(words[1..], gaps[1..]);
      var gs :| Wordly(words[1..], gs) && Join(words[1..], ' ') == Spelled(words[1..], gs);
      SpacedWord(words, gs);
    }
  }

  lemma SpacedWord(words: seq<string>, gs: seq<string>)
    requires |words| > 1 && Wordly(words[1..], gs) && words[0] != "" && NoSpace(words[0])
    ensures HasWords(words[0] + " " + Spelled(words[1..], gs), words)
  {
    var more := ["", " " + gs[0]] + gs[1..];
    assert more[1..] == gs[0 := " " + gs[0]];
    assert forall i :: 1 < i < |words| ==> more[i] == gs[i - 1];
    assert Wordly(words, more);
    assert Spelled(words[1..], more[1..]) == " " + Spelled(words[1..], gs) by {
      assert more[1..][1..] == gs[1..];
    }
  }

  // Two labels are the same if and only if they have the same words in the same
  // order, whatever the case and the spaces.
  lemma SameKeyExactly(a: string, b: string)
    ensures LabelKey(a) == LabelKey(b) <==> exists words :: HasWords(Lower(a), words) && HasWords(Lower(b), words)
  {
    hide Words, HasWords, Join, Lower;
    WordsJoinBack(Lower(a));
    WordsJoinBack(Lower(b));
    OneReading(Lower(a), Words(Lower(a)));
    OneReading(Lower(b), Words(Lower(b)));
    if words :| HasWords(Lower(a), words) && HasWords(Lower(b), words) {
      OneReading(Lower(a), words);
      OneReading(Lower(b), words);
    }
  }

  // --- values ------------------------------------------------------------------------------

  // Masked: asterisks alone, spaces around them aside.
  ghost predicate Starred(v: string) {
    exists a, stars, b ::
      && v == a + stars + b && AllSpace(a) && AllSpace(b)
      && stars != "" && forall c :: c in stars ==> c == '*'
  }

  lemma MaskedExactly(v: string)
    ensures IsMasked(v) <==> Starred(v)
  {
    hide Marker.Trim;
    var t := Marker.Trim(v);
    var a, b := TrimmedIs(v);
    if IsMasked(v) {
      assert t != "" && forall c :: c in t ==> c == '*';
      assert v == a + t + b && AllSpace(a) && AllSpace(b);
      assert Starred(v);
    }
    if Starred(v) {
      var a1, stars, b1 :| v == a1 + stars + b1 && AllSpace(a1) && AllSpace(b1) && stars != ""
                           && forall c :: c in stars ==> c == '*';
      assert stars[0] in stars && stars[|stars| - 1] in stars;
      Between(a1, stars, b1);
      assert t == stars && forall i :: 0 <= i < |t| ==> stars[i] in stars;
    }
  }

  lemma BlankExactly(v: string)
    ensures Blank(v) <==> AllSpace(v)
  {
    hide Marker.Trim;
    var a, b := TrimmedIs(v);
    if Blank(v) {
      assert v == a + b;
    }
    var t := Marker.Trim(v);
    assert forall i :: 0 <= i < |t| ==> v[|a| + i] == t[i] && t[i] in v;
  }

  // A row is written if and only if some cell of it says something, its name does, and
  // no target column would take a masked secret.
  lemma WrittenExactly(row: Row, nameCol: int, fates: seq<Fate>, source: Row)
    ensures Written(row, nameCol, fates, source) <==>
              && (exists i :: 0 <= i < |row| && !AllSpace(row[i]))
              && 0 <= nameCol < |row| && !AllSpace(row[nameCol])
              && !exists i :: 0 <= i < |fates| && fates[i].From? && 0 <= fates[i].col < |source|
                    && fates[i].col < |row| && SecretLabel(KeyOf(source[fates[i].col])) && Starred(row[fates[i].col])
  {
    hide SecretLabel, KeyOf, Blank, IsMasked, AllSpace, Starred;
    forall v: string
      ensures Blank(v) <==> AllSpace(v)
      ensures IsMasked(v) <==> Starred(v)
    {
      BlankExactly(v);
      MaskedExactly(v);
    }
    EmptySaysNothing();
    assert HasContent(row) <==> exists i :: 0 <= i < |row| && !AllSpace(row[i]);
    MaskedRowIs(row, fates, source);
  }

  lemma EmptySaysNothing()
    ensures AllSpace("") && !Starred("")
  {
  }

  lemma MaskedRowIs(row: Row, fates: seq<Fate>, source: Row)
    ensures MaskedRow(row, fates, source) <==>
              exists i :: 0 <= i < |fates| && fates[i].From? && 0 <= fates[i].col < |source|
                && fates[i].col < |row| && SecretLabel(KeyOf(source[fates[i].col])) && Starred(row[fates[i].col])
  {
    hide SecretLabel, KeyOf, IsMasked, Starred;
    forall v: string
      ensures IsMasked(v) <==> Starred(v)
    {
      MaskedExactly(v);
    }
    EmptySaysNothing();
    assert forall i :: 0 <= i < |fates| ==>
        (MaskedAt(row, fates[i], source) <==>
         fates[i].From? && 0 <= fates[i].col < |source| && fates[i].col < |row|
         && SecretLabel(KeyOf(source[fates[i].col])) && Starred(row[fates[i].col]));
  }

  // --- secrets ------------------------------------------------------------------------------

  // A column carries a secret if and only if one of five words stands somewhere in
  // its key, the flag that says whether passwords are encrypted aside.
  lemma SecretExactly(key: string)
    ensures SecretLabel(key) <==>
              && key != "passwordencrypted"
              && exists a, w, b ::
                   w in ["secret", "password", "community", "encryptionkey", "authenticationkey"] && key == a + w + b
  {
    forall w | w in SECRETS
      ensures Marker.Contains(key, w) <==> exists a, b :: key == a + w + b
    {
      WithinExactly(key, w);
    }
    hide Marker.Contains;
    if SecretLabel(key) {
      var w :| w in SECRETS && Marker.Contains(key, w);
      var a, b :| key == a + w + b;
    }
  }

  lemma WithinExactly(s: string, w: string)
    ensures Marker.Contains(s, w) <==> exists a, b :: s == a + w + b
  {
    if Marker.Contains(s, w) {
      var i: nat :| i <= |s| && Marker.OccursAt(s, w, i);
      assert s[i..i + |w|] == w;
      assert s == s[..i] + w + s[i + |w|..];
    }
    if a, b :| s == a + w + b {
      assert forall k :: 0 <= k < |w| ==> s[|a| + k] == w[k];
      assert Marker.OccursAt(s, w, |a|);
    }
  }

  lemma KeyIs(text: string, words: seq<string>)
    requires HasWords(Lower(text), words)
    ensures LabelKey(text) == Join(words, ' ')
  {
    OneReading(Lower(text), words);
  }

  // The two letters a type word begins with.
  predicate TypeLetters(a: char, b: char) {
    || (a == 'S' && (b == 't' || b == 'u')) || (a == 'B' && b == 'o') || (a == 'I' && b == 'n')
    || (a == 'E' && b == 'n') || (a == 'D' && b == 'a')
  }

  lemma NoType(part: string)
    requires |part| > 1 && !Marker.IsSpace(part[0]) && !Marker.IsSpace(part[|part| - 1])
    requires !TypeLetters(part[0], part[1])
    ensures !NamesType(part)
  {
    TypeStarts(part);
    Between("", part, "");
    assert "" + part + "" == part;
    hide Marker.Trim, NamesType;
    forall t | t in TYPE_TOKENS
      ensures t <= part ==> TypeLetters(part[0], part[1])
    {
      assert |t| > 1 && TypeLetters(t[0], t[1]);
    }
  }

  lemma TypeAtFront(part: string, w: string, rest: string)
    requires w in ["String", "Boolean", "Integer", "Enumeration", "Subnets", "Date"] && part == w + rest
    ensures NamesType(part)
  {
    assert part == "" + w + rest && AllSpace("");
  }

  // A header of three parts, the last of them its type.
  lemma ThreeParts(a: string, b: string, c: string, header: string)
    requires |a| > 1 && !Marker.IsSpace(a[0]) && !Marker.IsSpace(a[|a| - 1]) && !TypeLetters(a[0], a[1])
    requires |b| > 1 && !Marker.IsSpace(b[0]) && !Marker.IsSpace(b[|b| - 1]) && !TypeLetters(b[0], b[1])
    requires NamesType(c) && ':' !in a && ':' !in b && ':' !in c && a[0] != BOM[0]
    requires header == a + ":" + b + ":" + c
    ensures ColumnLabel(header) == a + ":" + b
  {
    hide NamesType, Marker.IsSpace, TypeLetters, ColumnLabel;
    var parts := [a, b, c];
    NoType(a);
    NoType(b);
    assert parts[1..] == [b, c] && parts[1..][1..] == [c];
    assert Join([c], ':') == c && Join([b, c], ':') == b + ":" + c;
    assert a + ":" + (b + ":" + c) == header;
    assert Join(parts, ':') == header;
    assert parts[..2] == [a, b] && [a, b][1..] == [b];
    assert Join(parts[..2], ':') == a + ":" + b;
    assert header[0] == a[0] && !(BOM <= header);
    LabelIs(parts, 2, header);
  }

  lemma NoColon(a: string, b: string)
    requires ':' !in a && ':' !in b
    ensures ':' !in a + b
  {
  }

  const SECRET_HEADER := "Authentication:Shared Secret:String(128)"
  const PROTOCOL_HEADER := "Authentication:Protocol:String(6)"

  lemma NoColons()
    ensures ':' !in "Authentication" && ':' !in "Shared Secret" && ':' !in "Protocol"
    ensures ':' !in "String(128)" && ':' !in "String(6)"
  {
    NoColon("Authen", "tication");
    assert "Authen" + "tication" == "Authentication";
    NoColon("Shared", " Secret");
    assert "Shared" + " Secret" == "Shared Secret";
    NoColon("String", "(128)");
    assert "String" + "(128)" == "String(128)";
  }

  lemma SecretHeaderIs()
    ensures SECRET_HEADER == "Authentication" + ":" + "Shared Secret" + ":" + "String(128)"
    ensures "Authentication" + ":" + "Shared Secret" == "Authentication:Shared Secret"
  {
  }

  lemma SecretHeaderLabel()
    ensures ColumnLabel(SECRET_HEADER) == "Authentication:Shared Secret"
  {
    hide NamesType, ColumnLabel;
    NoColons();
    TypeAtFront("String(128)", "String", "(128)");
    SecretHeaderIs();
    ThreeParts("Authentication", "Shared Secret", "String(128)", SECRET_HEADER);
  }

  lemma ProtocolHeaderIs()
    ensures PROTOCOL_HEADER == "Authentication" + ":" + "Protocol" + ":" + "String(6)"
    ensures "Authentication" + ":" + "Protocol" == "Authentication:Protocol"
  {
  }

  lemma ProtocolHeaderLabel()
    ensures ColumnLabel(PROTOCOL_HEADER) == "Authentication:Protocol"
  {
    hide NamesType, ColumnLabel;
    NoColons();
    TypeAtFront("String(6)", "String", "(6)");
    ProtocolHeaderIs();
    ThreeParts("Authentication", "Protocol", "String(6)", PROTOCOL_HEADER);
  }

  lemma NoSpaces(a: string, b: string)
    requires NoSpace(a) && NoSpace(b)
    ensures NoSpace(a + b)
  {
  }

  lemma AuthenticationIsWord()
    ensures NoSpace("authentication:")
  {
    NoSpaces("authen", "tication:");
    assert "authen" + "tication:" == "authentication:";
  }

  lemma LowerParts(a: string, b: string)
    ensures Lower(a + b) == Lower(a) + Lower(b)
  {
  }

  lemma LowerAuthentication()
    ensures Lower("Authentication:") == "authentication:"
  {
    LowerParts("Authen", "tication:");
    assert "Authen" + "tication:" == "Authentication:";
    assert Lower("Authen") == "authen" && Lower("tication:") == "tication:";
    assert "authen" + "tication:" == "authentication:";
  }

  lemma OneWord(w: string)
    requires w != "" && NoSpace(w)
    ensures HasWords(w, [w])
  {
    var gaps := ["", ""];
    assert gaps[1..] == [""] && [w][1..] == [] && Spelled([], [""]) == "";
    assert Wordly([w], gaps);
  }

  lemma TwoWords(v: string, w: string)
    requires v != "" && NoSpace(v) && w != "" && NoSpace(w)
    ensures HasWords(v + " " + w, [v, w])
  {
    OneWord(w);
    var gs :| Wordly([w], gs) && w == Spelled([w], gs);
    assert [v, w][1..] == [w];
    SpacedWord([v, w], gs);
  }

  // The shared secret's column is a secret's.
  lemma SharedSecretIsSecret()
    ensures KeyOf(SECRET_HEADER) == "authentication:shared secret" && SecretLabel(KeyOf(SECRET_HEADER))
  {
    hide Lower, ColumnLabel, LabelKey, SecretLabel, HasWords, NoSpace, Join;
    SecretHeaderLabel();
    SharedSecretKey();
    SecretExactly("authentication:shared secret");
    assert "authentication:shared secret" == "authentication:shared " + "secret" + "";
  }

  lemma LowerSharedSecret()
    ensures Lower("Authentication:Shared Secret") == "authentication:" + "shared" + " " + "secret"
  {
    var a, b, c := "Authentication:", "Shared", " Secret";
    LowerAuthentication();
    LowerParts(a, b);
    LowerParts(a + b, c);
    assert Lower(b) == "shared" && Lower(c) == " " + "secret";
    hide Lower;
    assert a + b + c == "Authentication:Shared Secret";
    assert "authentication:" + "shared" + (" " + "secret") == "authentication:" + "shared" + " " + "secret";
  }

  lemma SharedSecretKey()
    ensures LabelKey("Authentication:Shared Secret") == "authentication:shared secret"
  {
    hide LabelKey, HasWords, Lower, Join;
    LowerSharedSecret();
    AuthenticationIsWord();
    NoSpaces("authentication:", "shared");
    var v, w := "authentication:" + "shared", "secret";
    TwoWords(v, w);
    KeyIs("Authentication:Shared Secret", [v, w]);
    TwoJoined(v, w);
    SharedSecretIs();
  }

  lemma SharedSecretIs()
    ensures "authentication:" + "shared" + " " + "secret" == "authentication:shared secret"
  {
  }

  lemma TwoJoined(v: string, w: string)
    ensures Join([v, w], ' ') == v + " " + w
  {
    assert [v, w][1..] == [w];
  }

  // The protocol's is not.
  lemma ProtocolIsNoSecret()
    ensures KeyOf(PROTOCOL_HEADER) == "authentication:protocol" && !SecretLabel(KeyOf(PROTOCOL_HEADER))
  {
    hide Lower, ColumnLabel, LabelKey, SecretLabel, HasWords, NoSpace, Begins;
    ProtocolHeaderLabel();
    ProtocolKey();
    var key := "authentication:protocol";
    forall i: nat | 0 < i && i + 2 < |key|
      ensures !Begins(key[i], key[i + 1], key[i + 2])
    {
      NothingBegins(key[i], key[i + 1], key[i + 2]);
    }
    OnlyAtFront(key);
  }

  lemma ProtocolKey()
    ensures LabelKey("Authentication:Protocol") == "authentication:protocol"
  {
    hide LabelKey, HasWords;
    LowerAuthentication();
    LowerParts("Authentication:", "Protocol");
    assert "Authentication:" + "Protocol" == "Authentication:Protocol";
    assert Lower("Protocol") == "protocol";
    AuthenticationIsWord();
    NoSpaces("authentication:", "protocol");
    var w := "authentication:" + "protocol";
    hide Lower;
    OneWord(w);
    assert Lower("Authentication:Protocol") == w;
    KeyIs("Authentication:Protocol", [w]);
    assert w == "authentication:protocol";
  }

  lemma OnlyAtFront(key: string)
    requires |key| > 14 && key[0] == 'a' && key[14] != 'k'
    requires forall i: nat :: 0 < i && i + 2 < |key| ==> !Begins(key[i], key[i + 1], key[i + 2])
    ensures !SecretLabel(key)
  {
    hide Begins;
    forall s, i: nat | s in SECRETS && i <= |key|
      ensures !Marker.OccursAt(key, s, i)
    {
      NotAt(key, s, i);
    }
  }

  lemma AtFront(key: string, s: string)
    requires s in SECRETS && Marker.OccursAt(key, s, 0)
    ensures key != "" && key[0] == s[0]
    ensures s[0] == 'a' ==> |key| > 14 && key[14] == 'k'
  {
    assert key[0 + 0] == s[0];
    if s[0] == 'a' {
      assert s == "authenticationkey";
      assert key[0 + 14] == s[14];
    }
  }

  lemma NotAt(key: string, s: string, i: nat)
    requires |key| > 14 && key[0] == 'a' && key[14] != 'k' && s in SECRETS
    requires i > 0 && i + 2 < |key| ==> !Begins(key[i], key[i + 1], key[i + 2])
    ensures !Marker.OccursAt(key, s, i)
  {
    hide Begins, Marker.OccursAt;
    WordBegins(s);
    if Marker.OccursAt(key, s, i) {
      if i == 0 { AtFront(key, s); } else { OccursAtStart(key, s, i); }
    }
  }
}
