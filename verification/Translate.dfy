// Rewriting a network device export into the column layout of another release,
// the target's own template being the schema. Rows are the parsed records.
module Translate {
  import opened Segments
  import opened Objects
  import Marker
  import Picking

  type Row = seq<string>

  // --- labels -----------------------------------------------------------------------

  // The byte order mark, in bytes.
  const BOM := "\U{ef}\U{bb}\U{bf}"
  const TYPE_TOKENS := ["String", "Boolean", "Integer", "Enumeration", "Subnets", "Date"]

  function TrimBom(s: string): string { if BOM <= s then s[|BOM|..] else s }

  predicate StartsType(part: string) {
    exists t :: t in TYPE_TOKENS && t <= part
  }

  // The parts before the first that names a type, if one does.
  function BeforeType(parts: seq<string>): Option<seq<string>> {
    if parts == [] then None
    else if StartsType(Marker.Trim(parts[0])) then Some([])
    else match BeforeType(parts[1..])
      case None => None
      case Some(rest) => Some([parts[0]] + rest)
  }

  // A header without its type annotation.
  function ColumnLabel(header: string): string {
    match BeforeType(Split(TrimBom(header), ':'))
    case Some(parts) => Join(parts, ':')
    case None => header
  }

  // The words of a text: what its runs of spaces leave between them.
  function Words(s: string): seq<string> {
    if s == "" then []
    else if Marker.IsSpace(s[0]) then Words(s[1..])
    else if |s| > 1 && !Marker.IsSpace(s[1]) then
      var rest := Words(s[1..]);
      if rest == [] then [s] else [[s[0]] + rest[0]] + rest[1..]
    else [[s[0]]] + Words(s[1..])
  }

  // A label as it is matched across releases.
  function LabelKey(text: string): string { Join(Words(Lower(text)), ' ') }

  function KeyOf(header: string): string { LabelKey(ColumnLabel(header)) }

  // Renames between releases, source label key by target label key. The program
  // knows none yet; everything below holds for any.
  type Aliases = map<string, string>

  const READ_ONLY := {"sga:pac issue date", "sga:pac expiration date", "sga:pac issued by"}
  const NODES := {"snmp:originating policy services node", "sga:coa coa source host"}
  const SECRETS := ["secret", "password", "community", "encryptionkey", "authenticationkey"]

  predicate SecretLabel(key: string) {
    key != "passwordencrypted" && exists s :: s in SECRETS && Marker.Contains(key, s)
  }

  predicate IsMasked(v: string) {
    var t := Marker.Trim(v);
    t != "" && forall i :: 0 <= i < |t| ==> t[i] == '*'
  }

  predicate Blank(v: string) { Marker.Trim(v) == "" }

  // A row may be shorter than its header.
  function At(row: Row, i: int): string { if 0 <= i < |row| then row[i] else "" }

  predicate HasContent(row: Row) { exists i :: 0 <= i < |row| && !Blank(row[i]) }

  // --- columns ------------------------------------------------------------------------

  // Label key -> the last source column carrying it.
  function SourceIndex(header: Row): map<string, int> {
    if header == [] then map[]
    else SourceIndex(header[..|header| - 1])[KeyOf(header[|header| - 1]) := |header| - 1]
  }

  datatype Fate = Dropped | Empty | From(col: int)

  // Where a target column's cells come from.
  function FateOf(h: string, index: map<string, int>, aliases: Aliases): Fate {
    var key := KeyOf(h);
    if key in READ_ONLY then Dropped
    else if key in index then From(index[key])
    else if key in aliases && aliases[key] in index then From(index[aliases[key]])
    else Empty
  }

  function Fates(target: Row, index: map<string, int>, aliases: Aliases): seq<Fate> {
    seq(|target|, i requires 0 <= i < |target| => FateOf(target[i], index, aliases))
  }

  function LabelsWhere(target: Row, fates: seq<Fate>, what: Fate -> bool): seq<string>
    requires |fates| == |target|
  {
    if target == [] then []
    else
      var n := |target| - 1;
      LabelsWhere(target[..n], fates[..n], what) + if what(fates[n]) then [ColumnLabel(target[n])] else []
  }

  // The target columns that are filled, and carry a node.
  function NodeColumns(target: Row, fates: seq<Fate>, node: string): seq<string>
    requires |fates| == |target|
  {
    if target == [] then []
    else
      var n := |target| - 1;
      NodeColumns(target[..n], fates[..n], node)
      + if fates[n].From? && KeyOf(target[n]) in NODES && node != "" then [ColumnLabel(target[n])] else []
  }

  predicate Used(fates: seq<Fate>, j: int) { From(j) in fates }

  // Source columns with nowhere to go.
  function Unmapped(source: Row, fates: seq<Fate>): seq<string> {
    if source == [] then []
    else
      var n := |source| - 1;
      Unmapped(source[..n], fates)
      + if Used(fates, n) || KeyOf(source[n]) in READ_ONLY then [] else [ColumnLabel(source[n])]
  }

  // --- rows ---------------------------------------------------------------------------

  function Cell(row: Row, fate: Fate, source: Row, node: string): string {
    if !fate.From? then ""
    else
      var v := At(row, fate.col);
      if 0 <= fate.col < |source| && KeyOf(source[fate.col]) in NODES && node != "" && !Blank(v) then node else v
  }

  function Translated(row: Row, fates: seq<Fate>, source: Row, node: string): Row {
    seq(|fates|, i requires 0 <= i < |fates| => Cell(row, fates[i], source, node))
  }

  predicate MaskedAt(row: Row, fate: Fate, source: Row) {
    fate.From? && 0 <= fate.col < |source| && SecretLabel(KeyOf(source[fate.col])) && IsMasked(At(row, fate.col))
  }

  predicate MaskedRow(row: Row, fates: seq<Fate>, source: Row) {
    exists i :: 0 <= i < |fates| && MaskedAt(row, fates[i], source)
  }

  predicate Written(row: Row, nameCol: int, fates: seq<Fate>, source: Row) {
    HasContent(row) && !Blank(At(row, nameCol)) && !MaskedRow(row, fates, source)
  }

  function Body(rows: seq<Row>, nameCol: int, fates: seq<Fate>, source: Row, node: string): seq<Row> {
    if rows == [] then []
    else
      var n := |rows| - 1;
      Body(rows[..n], nameCol, fates, source, node)
      + if Written(rows[n], nameCol, fates, source) then [Translated(rows[n], fates, source, node)] else []
  }

  // The first target column from the i-th on that would take a masked secret.
  function MaskedFrom(row: Row, fates: seq<Fate>, source: Row, i: nat): (j: nat)
    requires i <= |fates|
    ensures i <= j <= |fates| && (j < |fates| ==> MaskedAt(row, fates[j], source))
    ensures forall k :: i <= k < j ==> !MaskedAt(row, fates[k], source)
    decreases |fates| - i
  {
    if i == |fates| || MaskedAt(row, fates[i], source) then i else MaskedFrom(row, fates, source, i + 1)
  }

  function FirstMasked(row: Row, fates: seq<Fate>, source: Row): (i: nat)
    requires MaskedRow(row, fates, source)
    ensures i < |fates| && MaskedAt(row, fates[i], source)
  {
    MaskedFrom(row, fates, source, 0)
  }

  // Why a row with content is not written.
  function RefusalOf(row: Row, nameCol: int, fates: seq<Fate>, source: Row): Refusal
    requires !Blank(At(row, nameCol)) ==> MaskedRow(row, fates, source)
  {
    if Blank(At(row, nameCol)) then NoName
    else
      var f := fates[FirstMasked(row, fates, source)];
      Masked(At(row, nameCol), ColumnLabel(source[f.col]))
  }

  function Refusals(rows: seq<Row>, nameCol: int, fates: seq<Fate>, source: Row): seq<Refusal> {
    if rows == [] then []
    else
      var n := |rows| - 1;
      Refusals(rows[..n], nameCol, fates, source)
      + if !HasContent(rows[n]) || Written(rows[n], nameCol, fates, source) then []
        else [RefusalOf(rows[n], nameCol, fates, source)]
  }

  function ContentRows(rows: seq<Row>): nat {
    if rows == [] then 0
    else ContentRows(rows[..|rows| - 1]) + if HasContent(rows[|rows| - 1]) then 1 else 0
  }

  // --- the translation -----------------------------------------------------------------

  datatype Refusal = NoName | Masked(name: string, column: string)

  datatype Summary = Summary(
    sourceRows: nat, writtenRows: nat,
    mapped: seq<string>, droppedRO: seq<string>, emptyTarget: seq<string>, unmappedSrc: seq<string>,
    nodeRewrites: seq<string>, refused: seq<Refusal>)

  datatype Output = Output(rows: seq<Row>, summary: Summary) | NoNameColumn

  method IndexSource(header: Row) returns (m: map<string, int>)
    ensures m == SourceIndex(header)
  {
    hide KeyOf;
    m := map[];
    for i := 0 to |header|
      invariant m == SourceIndex(header[..i])
    {
      assert header[..i + 1][..i] == header[..i];
      m := m[KeyOf(header[i]) := i];
    }
    assert header[..|header|] == header;
  }

  // The fate of every target column, and what is reported of each.
  method PickColumns(target: Row, index: map<string, int>, aliases: Aliases, node: string)
    returns (pick: seq<Fate>, mapped: seq<string>, dropped: seq<string>, empty: seq<string>, rewrites: seq<string>)
    ensures pick == Fates(target, index, aliases)
    ensures mapped == LabelsWhere(target, pick, (f: Fate) => f.From?)
    ensures dropped == LabelsWhere(target, pick, (f: Fate) => f.Dropped?)
    ensures empty == LabelsWhere(target, pick, (f: Fate) => f.Empty?)
    ensures rewrites == NodeColumns(target, pick, node)
  {
    hide FateOf, LabelsWhere, ColumnLabel, LabelKey, NodeColumns;
    pick, mapped, dropped, empty, rewrites := [], [], [], [], [];
    NoNodes(node);
    NoLabels();
    for i := 0 to |target|
      invariant pick == Fates(target[..i], index, aliases)
      invariant mapped == LabelsWhere(target[..i], pick, (f: Fate) => f.From?)
      invariant dropped == LabelsWhere(target[..i], pick, (f: Fate) => f.Dropped?)
      invariant empty == LabelsWhere(target[..i], pick, (f: Fate) => f.Empty?)
      invariant rewrites == NodeColumns(target[..i], pick, node)
    {
      NodesNext(target, pick, FateOf(target[i], index, aliases), i, node);
      var text := ColumnLabel(target[i]);
      var fate := FateOf(target[i], index, aliases);
      LabelsNext(target, pick, fate, i, (f: Fate) => f.From?);
      LabelsNext(target, pick, fate, i, (f: Fate) => f.Dropped?);
      LabelsNext(target, pick, fate, i, (f: Fate) => f.Empty?);
      pick := pick + [fate];
      match fate {
        case Dropped => dropped := dropped + [text];
        case Empty => empty := empty + [text];
        case From(_) =>
          mapped := mapped + [text];
          if LabelKey(text) in NODES && node != "" {
            rewrites := rewrites + [text];
          }
      }
    }
    assert target[..|target|] == target;
  }

  lemma NoLabels()
    ensures forall what: Fate -> bool :: LabelsWhere([], [], what) == []
  {
  }

  lemma LabelsNext(target: Row, pick: seq<Fate>, fate: Fate, i: nat, what: Fate -> bool)
    requires i < |target| && |pick| == i
    ensures LabelsWhere(target[..i + 1], pick + [fate], what)
         == LabelsWhere(target[..i], pick, what) + if what(fate) then [ColumnLabel(target[i])] else []
  {
    hide ColumnLabel;
    assert target[..i + 1][..i] == target[..i];
    assert (pick + [fate])[..i] == pick;
  }

  lemma NoNodes(node: string)
    ensures NodeColumns([], [], node) == []
  {
  }

  lemma NodesNext(target: Row, pick: seq<Fate>, fate: Fate, i: nat, node: string)
    requires i < |target| && |pick| == i
    ensures NodeColumns(target[..i + 1], pick + [fate], node)
         == if fate.From? && KeyOf(target[i]) in NODES && node != "" then NodeColumns(target[..i], pick, node) +
             [ColumnLabel(target[i])]
            else NodeColumns(target[..i], pick, node)
  {
    hide ColumnLabel, LabelKey;
    assert target[..i + 1][..i] == target[..i];
    assert (pick + [fate])[..i] == pick;
  }

  method ReportUnmapped(source: Row, fates: seq<Fate>) returns (unmapped: seq<string>)
    ensures unmapped == Unmapped(source, fates)
  {
    hide KeyOf, ColumnLabel;
    unmapped := [];
    for i := 0 to |source|
      invariant unmapped == Unmapped(source[..i], fates)
    {
      assert source[..i + 1][..i] == source[..i];
      if !(Used(fates, i) || KeyOf(source[i]) in READ_ONLY) {
        unmapped := unmapped + [ColumnLabel(source[i])];
      }
    }
    assert source[..|source|] == source;
  }

  // One row, cell by cell. `masked` is the label of the first masked secret, ""
  // when there is none.
  method TranslateRow(row: Row, fates: seq<Fate>, source: Row, node: string) returns (rec: Row, masked: string)
    requires forall f :: f in fates && f.From? ==> 0 <= f.col < |source|
    ensures masked != "" <==> MaskedRow(row, fates, source)
    ensures masked != "" ==> masked == ColumnLabel(source[fates[FirstMasked(row, fates, source)].col])
    ensures masked == "" ==> rec == Translated(row, fates, source, node)
  {
    hide SecretLabel, IsMasked, KeyOf, ColumnLabel, At, Marker.Trim;
    rec, masked := [], "";
    for i := 0 to |fates|
      invariant |rec| == i && forall j :: 0 <= j < i ==> rec[j] == Cell(row, fates[j], source, node)
      invariant forall j :: 0 <= j < i ==> !MaskedAt(row, fates[j], source)
    {
      assert fates[i] in fates;
      if !fates[i].From? {
        rec := rec + [""];
        continue;
      }
      var j := fates[i].col;
      var v := At(row, j);
      var key := KeyOf(source[j]);
      if SecretLabel(key) && IsMasked(v) {
        SecretHasLabel(source[j]);
        assert MaskedAt(row, fates[i], source);
        assert FirstMasked(row, fates, source) == i;
        return rec, ColumnLabel(source[j]);
      }
      if key in NODES && node != "" && !Blank(v) {
        v := node;
      }
      rec := rec + [v];
    }
  }

  // The empty label is no secret's, so it can stand for "none is masked".
  lemma EmptyIsNoSecret()
    ensures !SecretLabel(LabelKey(""))
  {
    assert forall s :: s in SECRETS ==> |s| > 0;
    assert LabelKey("") == "";
  }

  lemma SecretHasLabel(header: string)
    requires SecretLabel(KeyOf(header))
    ensures ColumnLabel(header) != ""
  {
    hide SecretLabel, LabelKey, ColumnLabel;
    EmptyIsNoSecret();
  }

  // src and template hold at least a header row each, and a header has at least
  // one column: a file with neither is refused by the reader.
  method Translate(src: seq<Row>, template: seq<Row>, node: string, aliases: Aliases) returns (out: Output)
    requires |src| > 0 && |template| > 0 && |src[0]| > 0 && |template[0]| > 0
    ensures var source, target := Header(src), Header(template);
            var index := SourceIndex(source);
            var fates := Fates(target, index, aliases);
            if LabelKey("Name") !in index then out == NoNameColumn
            else
              && out.Output?
              && out.rows == [target] + Body(src[1..], index[LabelKey("Name")], fates, source, node)
              && out.summary.sourceRows == ContentRows(src[1..])
              && out.summary.writtenRows == |out.rows| - 1
              && out.summary.sourceRows == out.summary.writtenRows + |out.summary.refused|
              && out.summary.refused == Refusals(src[1..], index[LabelKey("Name")], fates, source)
              && out.summary.mapped == LabelsWhere(target, fates, (f: Fate) => f.From?)
              && out.summary.droppedRO == LabelsWhere(target, fates, (f: Fate) => f.Dropped?)
              && out.summary.emptyTarget == LabelsWhere(target, fates, (f: Fate) => f.Empty?)
              && out.summary.unmappedSrc == Unmapped(source, fates)
              && out.summary.nodeRewrites == NodeColumns(target, fates, node)
  {
    hide SourceIndex, FateOf, LabelsWhere, NodeColumns, Unmapped, MaskedRow, HasContent, Blank, Translated, LabelKey,
         KeyOf;
    var source, target := Header(src), Header(template);
    var index := IndexSource(source);
    var fates, mapped, dropped, empty, rewrites := PickColumns(target, index, aliases, node);
    var unmapped := ReportUnmapped(source, fates);
    if LabelKey("Name") !in index {
      return NoNameColumn;
    }
    var nameCol := index[LabelKey("Name")];
    FatesInRange(source, target, aliases);
    var rows := src[1..];
    var body: seq<Row> := [];
    var sourceRows := 0;
    var refused: seq<Refusal> := [];
    for i := 0 to |rows|
      invariant body == Body(rows[..i], nameCol, fates, source, node)
      invariant sourceRows == ContentRows(rows[..i])
      invariant sourceRows == |body| + |refused|
      invariant refused == Refusals(rows[..i], nameCol, fates, source)
    {
      assert rows[..i + 1][..i] == rows[..i];
      var row := rows[i];
      if !HasContent(row) { continue; }
      sourceRows := sourceRows + 1;
      var name := At(row, nameCol);
      if Blank(name) {
        refused := refused + [NoName];
        continue;
      }
      var rec, masked := TranslateRow(row, fates, source, node);
      if masked != "" {
        refused := refused + [Masked(name, masked)];
        continue;
      }
      body := body + [rec];
    }
    assert rows[..|rows|] == rows;
    out := Output([target] + body,
      Summary(sourceRows, |body|, mapped, dropped, empty, unmapped, rewrites, refused));
  }

  function Header(rows: seq<Row>): Row
    requires |rows| > 0 && |rows[0]| > 0
  {
    rows[0][0 := TrimBom(rows[0][0])]
  }

  // --- what is proved about it -----------------------------------------------------------

  lemma {:induction false} IndexIs(source: Row)
    ensures forall k :: k in SourceIndex(source) ==>
      0 <= SourceIndex(source)[k] < |source| && KeyOf(source[SourceIndex(source)[k]]) == k
    ensures forall j :: 0 <= j < |source| ==>
              KeyOf(source[j]) in SourceIndex(source) && j <= SourceIndex(source)[KeyOf(source[j])]
  {
    hide KeyOf;
    if source != [] {
      var n := |source| - 1;
      IndexIs(source[..n]);
      assert forall j :: 0 <= j < n ==> source[..n][j] == source[j];
    }
  }

  lemma FatesInRange(source: Row, target: Row, aliases: Aliases)
    ensures forall f :: f in Fates(target, SourceIndex(source), aliases) && f.From? ==> 0 <= f.col < |source|
  {
    hide KeyOf, SourceIndex;
    IndexIs(source);
  }

  // The same label, or one renamed into the other.
  predicate Corresponds(source: string, target: string, aliases: Aliases) {
    KeyOf(source) == KeyOf(target) || (KeyOf(target) in aliases && aliases[KeyOf(target)] == KeyOf(source))
  }

  ghost predicate HasColumn(source: Row, key: string) { exists j :: 0 <= j < |source| && KeyOf(source[j]) == key }

  // The last source column of this key.
  ghost predicate LastOf(source: Row, key: string, j: int) {
    && 0 <= j < |source| && KeyOf(source[j]) == key
    && forall l :: j < l < |source| ==> KeyOf(source[l]) != key
  }

  // A target column takes its cells from the last source column of its own label,
  // and for want of one from the last of the label it was renamed from.
  lemma FateMatches(source: Row, target: Row, aliases: Aliases, i: nat)
    requires i < |target|
    ensures var f, key := Fates(target, SourceIndex(source), aliases)[i], KeyOf(target[i]);
            match f
            case Dropped => key in READ_ONLY
            case From(j) =>
              && key !in READ_ONLY
              && if HasColumn(source, key) then LastOf(source, key, j)
                 else key in aliases && LastOf(source, aliases[key], j)
            case Empty =>
              && key !in READ_ONLY && !HasColumn(source, key)
              && (key in aliases ==> !HasColumn(source, aliases[key]))
  {
    hide KeyOf, SourceIndex;
    IndexIs(source);
    forall k
      ensures HasColumn(source, k) <==> k in SourceIndex(source)
      ensures k in SourceIndex(source) ==> LastOf(source, k, SourceIndex(source)[k])
    {
      IndexIsLast(source, k);
    }
  }

  lemma IndexIsLast(source: Row, key: string)
    ensures HasColumn(source, key) <==> key in SourceIndex(source)
    ensures key in SourceIndex(source) ==> LastOf(source, key, SourceIndex(source)[key])
  {
    hide KeyOf, SourceIndex;
    IndexIs(source);
    if key in SourceIndex(source) {
      var j := SourceIndex(source)[key];
      assert 0 <= j < |source| && KeyOf(source[j]) == key;
    }
  }

  lemma {:induction false} UnmappedIs(source: Row, fates: seq<Fate>, j: nat)
    requires j < |source| && !Used(fates, j) && KeyOf(source[j]) !in READ_ONLY
    ensures ColumnLabel(source[j]) in Unmapped(source, fates)
  {
    hide KeyOf, ColumnLabel, Used;
    var n := |source| - 1;
    if j < n { UnmappedIs(source[..n], fates, j); }
  }

  // A cell is found again: some target column takes it - from a column of the same
  // label, when its own column has one - as it is, or, under a node column that is
  // not blank, as the target's node.
  ghost predicate FoundAgain(source: Row, target: Row, aliases: Aliases, row: Row, node: string, j: nat) {
    var fates := Fates(target, SourceIndex(source), aliases);
    exists i :: 0 <= i < |target| && fates[i] == From(j)
      && (j < |source| ==> Corresponds(source[j], target[i], aliases))
      && Translated(row, fates, source, node)[i]
           == if j < |source| && KeyOf(source[j]) in NODES && node != "" && !Blank(At(row, j)) then node else At(row, j)
  }

  // Nothing has to be said of a cell: its column is reported unmapped, or read-only.
  ghost predicate Reported(source: Row, target: Row, aliases: Aliases, j: nat) {
    && j < |source|
    && (|| ColumnLabel(source[j]) in Unmapped(source, Fates(target, SourceIndex(source), aliases))
        || KeyOf(source[j]) in READ_ONLY)
  }

  // A cell is accounted for: it is empty, or its column is reported, or it is found
  // again.
  ghost predicate AccountedFor(source: Row, target: Row, aliases: Aliases, row: Row, node: string, j: nat) {
    || At(row, j) == ""
    || Reported(source, target, aliases, j)
    || FoundAgain(source, target, aliases, row, node, j)
  }

  lemma ColumnAccountedFor(source: Row, target: Row, aliases: Aliases, row: Row, node: string, j: nat)
    requires j < |source|
    ensures Reported(source, target, aliases, j) || FoundAgain(source, target, aliases, row, node, j)
  {
    hide KeyOf, ColumnLabel, SourceIndex, Blank, At, FateOf, Unmapped;
    var fates := Fates(target, SourceIndex(source), aliases);
    if KeyOf(source[j]) !in READ_ONLY {
      if Used(fates, j) {
        var i :| 0 <= i < |fates| && fates[i] == From(j);
        FateMatches(source, target, aliases, i);
        assert Translated(row, fates, source, node)[i] == Cell(row, From(j), source, node);
      } else {
        UnmappedIs(source, fates, j);
      }
    }
  }

  // No target column takes its cells from beyond the source header.
  lemma NotFoundBeyond(source: Row, target: Row, aliases: Aliases, row: Row, node: string, j: nat)
    requires j >= |source|
    ensures !FoundAgain(source, target, aliases, row, node, j)
  {
    hide KeyOf, SourceIndex, Blank, FateOf, ColumnLabel;
    FatesInRange(source, target, aliases);
    var fates := Fates(target, SourceIndex(source), aliases);
    forall i | 0 <= i < |target|
      ensures fates[i] != From(j)
    {
      assert fates[i] in fates;
    }
  }

  // Nothing is lost without a word, exactly when nothing stands beyond the header:
  // every source column is reported or found again, and every cell of a row is
  // accounted for unless it lies beyond the header and is not empty.
  lemma NothingLostSilently(source: Row, target: Row, aliases: Aliases, row: Row, node: string)
    ensures forall j: nat :: j < |source| ==>
              Reported(source, target, aliases, j) || FoundAgain(source, target, aliases, row, node, j)
    ensures (forall j: nat :: j < |row| ==> AccountedFor(source, target, aliases, row, node, j)) <==>
            (forall j: nat :: |source| <= j < |row| ==> row[j] == "")
  {
    hide KeyOf, ColumnLabel, SourceIndex, FoundAgain, Unmapped;
    forall j: nat | j < |source|
      ensures Reported(source, target, aliases, j) || FoundAgain(source, target, aliases, row, node, j)
    {
      ColumnAccountedFor(source, target, aliases, row, node, j);
    }
    forall j: nat | |source| <= j < |row|
      ensures AccountedFor(source, target, aliases, row, node, j) <==> row[j] == ""
    {
      NotFoundBeyond(source, target, aliases, row, node, j);
    }
  }

  // What lies beyond the header leaves no trace in the row written.
  lemma BeyondHeaderIsLost(source: Row, target: Row, aliases: Aliases, row: Row, node: string)
    requires |row| > |source|
    ensures Translated(row, Fates(target, SourceIndex(source), aliases), source, node)
         == Translated(row[..|source|], Fates(target, SourceIndex(source), aliases), source, node)
  {
    hide KeyOf, SourceIndex, Blank, FateOf;
    var fates := Fates(target, SourceIndex(source), aliases);
    FatesInRange(source, target, aliases);
    forall i | 0 <= i < |fates|
      ensures Cell(row, fates[i], source, node) == Cell(row[..|source|], fates[i], source, node)
    {
      assert fates[i] in fates;
    }
  }

  // Every target column is in exactly one of the three lists: each column is in
  // the list of its own fate, and together they are as long as the header.
  lemma {:induction false} ColumnListed(target: Row, fates: seq<Fate>, what: Fate -> bool, i: nat)
    requires |fates| == |target| && i < |target| && what(fates[i])
    ensures ColumnLabel(target[i]) in LabelsWhere(target, fates, what)
  {
    hide ColumnLabel;
    var n := |target| - 1;
    if i < n { ColumnListed(target[..n], fates[..n], what, i); }
  }

  lemma {:induction false} ColumnsAccounted(target: Row, fates: seq<Fate>)
    requires |fates| == |target|
    ensures |LabelsWhere(target, fates, (f: Fate) => f.From?)|
          + |LabelsWhere(target, fates, (f: Fate) => f.Dropped?)|
          + |LabelsWhere(target, fates, (f: Fate) => f.Empty?)| == |target|
  {
    hide ColumnLabel;
    if target != [] {
      var n := |target| - 1;
      ColumnsAccounted(target[..n], fates[..n]);
    }
  }

  // A node column holds no secret: a label of one has no place where a secret's
  // word could begin.
  predicate Begins(a: char, b: char, c: char) { [a, b, c] in ["sec", "pas", "com", "enc", "aut"] }

  lemma NoBeginning(key: string)
    requires forall i: nat :: i + 2 < |key| ==> !Begins(key[i], key[i + 1], key[i + 2])
    ensures !SecretLabel(key)
  {
    hide Begins;
    forall s | s in SECRETS
      ensures !Marker.Contains(key, s)
    {
      WordBegins(s);
      if i: nat :| i <= |key| && Marker.OccursAt(key, s, i) {
        OccursAtStart(key, s, i);
      }
    }
  }

  lemma OccursAtStart(key: string, s: string, i: nat)
    requires |s| > 2 && Marker.OccursAt(key, s, i)
    ensures i + 2 < |key| && key[i] == s[0] && key[i + 1] == s[1] && key[i + 2] == s[2]
  {
    assert key[i + 0] == s[0];
  }

  lemma WordBegins(s: string)
    requires s in SECRETS
    ensures |s| > 2 && Begins(s[0], s[1], s[2])
  {
  }

  lemma NodesAreNoSecrets()
    ensures forall key :: key in NODES ==> !SecretLabel(key)
  {
    var a, b := "snmp:originating policy services node", "sga:coa coa source host";
    forall i: nat | i + 2 < |a|
      ensures !Begins(a[i], a[i + 1], a[i + 2])
    {
      NothingBegins(a[i], a[i + 1], a[i + 2]);
    }
    forall i: nat | i + 2 < |b|
      ensures !Begins(b[i], b[i + 1], b[i + 2])
    {
      NothingBegins(b[i], b[i + 1], b[i + 2]);
    }
    hide SecretLabel, Begins;
    NoBeginning(a);
    NoBeginning(b);
  }

  lemma NothingBegins(a: char, b: char, c: char)
    ensures Begins(a, b, c) <==>
              || (a == 's' && b == 'e' && c == 'c') || (a == 'p' && b == 'a' && c == 's')
              || (a == 'c' && b == 'o' && c == 'm')
              || (a == 'e' && b == 'n' && c == 'c') || (a == 'a' && b == 'u' && c == 't')
  {
    var w := [a, b, c];
    assert w == "sec" <==> a == 's' && b == 'e' && c == 'c';
    assert w == "pas" <==> a == 'p' && b == 'a' && c == 's';
    assert w == "com" <==> a == 'c' && b == 'o' && c == 'm';
    assert w == "enc" <==> a == 'e' && b == 'n' && c == 'c';
    assert w == "aut" <==> a == 'a' && b == 'u' && c == 't';
  }

  // No masked value is written as if it were the secret.
  lemma NoMaskedSecretWritten(source: Row, target: Row, aliases: Aliases, row: Row, nameCol: int, node: string, i: nat)
    requires i < |target| && Written(row, nameCol, Fates(target, SourceIndex(source), aliases), source)
    requires KeyOf(target[i]) !in aliases && SecretLabel(KeyOf(target[i]))
    ensures !IsMasked(Translated(row, Fates(target, SourceIndex(source), aliases), source, node)[i])
  {
    NodesAreNoSecrets();
    hide KeyOf, SourceIndex, Blank, At, FateOf, Marker.Trim, SecretLabel, HasContent;
    var fates := Fates(target, SourceIndex(source), aliases);
    FateMatches(source, target, aliases, i);
    assert fates[i].From? ==> !MaskedAt(row, fates[i], source);
    EmptyIsNotMasked();
  }

  lemma EmptyIsNotMasked()
    ensures !IsMasked("")
  {
  }

  // Translating into the same layout gives every row back, read-only columns aside
  // and, when a node is given, the cells that name one: a cell the row does not have
  // reads as empty.
  lemma SameLayoutGivesRowBack(header: Row, aliases: Aliases, row: Row, node: string, i: nat)
    requires forall x, y :: 0 <= x < y < |header| ==> KeyOf(header[x]) != KeyOf(header[y])
    requires i < |header|
    ensures Translated(row, Fates(header, SourceIndex(header), aliases), header, node)[i]
         == if KeyOf(header[i]) in READ_ONLY then ""
            else if KeyOf(header[i]) in NODES && node != "" && !Blank(At(row, i)) then node
            else At(row, i)
  {
    hide KeyOf, SourceIndex, Blank, At, FateOf;
    IndexIs(header);
    var j := SourceIndex(header)[KeyOf(header[i])];
    assert KeyOf(header[j]) == KeyOf(header[i]);
    assert j == i;
    OwnFate(header, aliases, i);
  }

  lemma OwnFate(header: Row, aliases: Aliases, i: nat)
    requires i < |header| && KeyOf(header[i]) in SourceIndex(header) && SourceIndex(header)[KeyOf(header[i])] == i
    ensures Fates(header, SourceIndex(header), aliases)[i] == if KeyOf(header[i]) in READ_ONLY then Dropped else From(i)
  {
    hide KeyOf, SourceIndex;
  }

  // --- exactly what is listed -----------------------------------------------------------------

  function Upto(n: nat): (s: seq<nat>)
    ensures |s| == n && forall i :: 0 <= i < n ==> s[i] == i
  {
    seq(n, i => i)
  }

  ghost function Labelled(header: Row): nat -> string {
    (i: nat) => if i < |header| then ColumnLabel(header[i]) else ""
  }

  ghost function Fated(fates: seq<Fate>, what: Fate -> bool): nat -> bool { (i: nat) => i < |fates| && what(fates[i]) }

  // Listed are exactly the columns of that fate, in header order.
  lemma {:induction false} LabelsExactly(target: Row, fates: seq<Fate>, what: Fate -> bool, n: nat)
    returns (at: seq<nat>)
    requires |fates| == |target| && n <= |target|
    ensures Picking.Picked(at, Upto(n), LabelsWhere(target[..n], fates[..n], what), Fated(fates, what),
                           Labelled(target))
  {
    hide ColumnLabel, Picking.Picked;
    if n == 0 {
      Picking.NothingPicked(Fated(fates, what), Labelled(target));
      at := [];
    } else {
      assert target[..n][..n - 1] == target[..n - 1] && fates[..n][..n - 1] == fates[..n - 1];
      assert Upto(n)[..n - 1] == Upto(n - 1);
      at := LabelsExactly(target, fates, what, n - 1);
      at := Picking.LastPicked(at, Upto(n), LabelsWhere(target[..n - 1], fates[..n - 1], what), Fated(fates, what),
                               Labelled(target));
    }
  }

  ghost function CarryNode(target: Row, fates: seq<Fate>, node: string): nat -> bool {
    (i: nat) => i < |fates| == |target| && fates[i].From? && node != ""
                && KeyOf(target[i]) in ["snmp:originating policy services node", "sga:coa coa source host"]
  }

  // Reported as rewritten are exactly the filled columns that carry a node, when one
  // is given.
  lemma {:induction false} NodesExactly(target: Row, fates: seq<Fate>, node: string, n: nat) returns (at: seq<nat>)
    requires |fates| == |target| && n <= |target|
    ensures Picking.Picked(at, Upto(n), NodeColumns(target[..n], fates[..n], node), CarryNode(target, fates, node),
                           Labelled(target))
  {
    hide ColumnLabel, LabelKey, Picking.Picked;
    if n == 0 {
      Picking.NothingPicked(CarryNode(target, fates, node), Labelled(target));
      at := [];
    } else {
      assert target[..n][..n - 1] == target[..n - 1] && fates[..n][..n - 1] == fates[..n - 1];
      assert Upto(n)[..n - 1] == Upto(n - 1);
      at := NodesExactly(target, fates, node, n - 1);
      at := Picking.LastPicked(at, Upto(n), NodeColumns(target[..n - 1], fates[..n - 1], node),
                               CarryNode(target, fates, node), Labelled(target));
    }
  }

  ghost function HasNoHome(source: Row, fates: seq<Fate>): nat -> bool {
    (j: nat) => j < |source| && From(j) !in fates
                && KeyOf(source[j]) !in ["sga:pac issue date", "sga:pac expiration date", "sga:pac issued by"]
  }

  // Reported as lost are exactly the source columns no target column takes and that
  // the target does not fill itself.
  lemma {:induction false} UnmappedExactly(source: Row, fates: seq<Fate>, n: nat) returns (at: seq<nat>)
    requires n <= |source|
    ensures Picking.Picked(at, Upto(n), Unmapped(source[..n], fates), HasNoHome(source, fates), Labelled(source))
  {
    hide ColumnLabel, LabelKey, Picking.Picked;
    if n == 0 {
      Picking.NothingPicked(HasNoHome(source, fates), Labelled(source));
      at := [];
    } else {
      assert source[..n][..n - 1] == source[..n - 1] && Upto(n)[..n - 1] == Upto(n - 1);
      at := UnmappedExactly(source, fates, n - 1);
      at := Picking.LastPicked(at, Upto(n), Unmapped(source[..n - 1], fates), HasNoHome(source, fates),
                               Labelled(source));
    }
  }

  // The cells of a row that is written, column by column.
  lemma TranslatedIs(row: Row, fates: seq<Fate>, source: Row, node: string, i: nat)
    requires i < |fates|
    ensures |Translated(row, fates, source, node)| == |fates|
    ensures var cell := Translated(row, fates, source, node)[i];
            match fates[i]
            case From(j) =>
              var v := if 0 <= j < |row| then row[j] else "";
              cell == if 0 <= j < |source| && node != "" && Marker.Trim(v) != ""
                         && KeyOf(source[j]) in ["snmp:originating policy services node", "sga:coa coa source host"]
                      then node else v
            case _ => cell == ""
  {
    hide KeyOf, Marker.Trim;
  }

  ghost function Writing(nameCol: int, fates: seq<Fate>, source: Row): Row -> bool {
    (row: Row) => Written(row, nameCol, fates, source)
  }

  ghost function Translating(fates: seq<Fate>, source: Row, node: string): Row -> Row {
    (row: Row) => Translated(row, fates, source, node)
  }

  // The rows written are exactly the rows that can be, in source order.
  lemma {:induction false} BodyKeepsOrder(rows: seq<Row>, nameCol: int, fates: seq<Fate>, source: Row, node: string)
    returns (at: seq<nat>)
    ensures Picking.Picked(at, rows, Body(rows, nameCol, fates, source, node), Writing(nameCol, fates, source),
                           Translating(fates, source, node))
  {
    hide Written, Translated, Picking.Picked;
    var writes, becomes := Writing(nameCol, fates, source), Translating(fates, source, node);
    if rows == [] {
      Picking.NothingPicked(writes, becomes);
      at := [];
    } else {
      var n := |rows| - 1;
      at := BodyKeepsOrder(rows[..n], nameCol, fates, source, node);
      at := Picking.LastPicked(at, rows, Body(rows[..n], nameCol, fates, source, node), writes, becomes);
    }
  }

  ghost function Refusing(nameCol: int, fates: seq<Fate>, source: Row): Row -> bool {
    (row: Row) => HasContent(row) && !Written(row, nameCol, fates, source)
  }

  ghost function Excused(nameCol: int, fates: seq<Fate>, source: Row): Row -> Refusal {
    (row: Row) =>
      if HasContent(row) && !Written(row, nameCol, fates, source) then RefusalOf(row, nameCol, fates, source)
      else NoName
  }

  // The rows refused are exactly the others that have content, in source order.
  lemma {:induction false} RefusalsKeepOrder(rows: seq<Row>, nameCol: int, fates: seq<Fate>, source: Row)
    returns (at: seq<nat>)
    ensures Picking.Picked(at, rows, Refusals(rows, nameCol, fates, source), Refusing(nameCol, fates, source),
                           Excused(nameCol, fates, source))
  {
    hide HasContent, RefusalOf, MaskedRow, Blank, Picking.Picked;
    var refuses, excuse := Refusing(nameCol, fates, source), Excused(nameCol, fates, source);
    if rows == [] {
      Picking.NothingPicked(refuses, excuse);
      at := [];
    } else {
      var n := |rows| - 1;
      at := RefusalsKeepOrder(rows[..n], nameCol, fates, source);
      at := Picking.LastPicked(at, rows, Refusals(rows[..n], nameCol, fates, source), refuses, excuse);
    }
  }

  // Why a row is refused: it has no name, or else a target column would take a masked
  // secret; the first such is named by the source's label.
  lemma RefusalIs(row: Row, nameCol: int, fates: seq<Fate>, source: Row)
    requires HasContent(row) && !Written(row, nameCol, fates, source)
    ensures var why := RefusalOf(row, nameCol, fates, source);
            if Blank(At(row, nameCol)) then why == NoName
            else
              exists i :: 0 <= i < |fates| && MaskedAt(row, fates[i], source)
                && (forall j :: 0 <= j < i ==> !MaskedAt(row, fates[j], source))
                && why == Masked(At(row, nameCol), ColumnLabel(source[fates[i].col]))
  {
    hide MaskedAt, HasContent, Blank, ColumnLabel;
    if !Blank(At(row, nameCol)) {
      var i := FirstMasked(row, fates, source);
      MaskedInRange(row, fates[i], source);
      assert RefusalOf(row, nameCol, fates, source) == Masked(At(row, nameCol), ColumnLabel(source[fates[i].col]));
    }
  }

  lemma MaskedInRange(row: Row, fate: Fate, source: Row)
    requires MaskedAt(row, fate, source)
    ensures fate.From? && 0 <= fate.col < |source|
  {
  }
}
