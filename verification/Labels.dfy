/** GCP labels in the two shapes the billing export uses: the BigQuery list of key/value
    structs and the CSV string "k:v;k:v". */
module Labels {
  import opened Wrappers

  /** An element of the BigQuery list: a dict with a key, a dict without one, or anything else. */
  datatype Entry = Label(key: string, value: Option<string>) | NoKey | NotDict

  datatype Labels = Missing | ListForm(entries: seq<Entry>) | Text(text: string) | DictForm(pairs: map<string, Option<string>>)

  // --- Python string operations ---------------------------------------------------------

  /** The characters str.strip removes. */
  predicate IsSpace(c: char) {
    '\U{9}' <= c <= '\U{D}' || '\U{1C}' <= c <= '\U{20}' || c == '\U{85}' || c == '\U{A0}' || c == '\U{1680}'
    || '\U{2000}' <= c <= '\U{200A}' || c == '\U{2028}' || c == '\U{2029}' || c == '\U{202F}'
    || c == '\U{205F}' || c == '\U{3000}'
  }

  function StripLeft(s: string): string {
    if s != "" && IsSpace(s[0]) then StripLeft(s[1..]) else s
  }

  function StripRight(s: string): string {
    if s != "" && IsSpace(s[|s| - 1]) then StripRight(s[..|s| - 1]) else s
  }

  function Strip(s: string): string { StripRight(StripLeft(s)) }

  /** Position of the first c, or |s|. */
  function IndexOf(s: string, c: char): (i: nat)
    ensures i <= |s| && forall j :: 0 <= j < i ==> s[j] != c
    ensures i < |s| ==> s[i] == c
  {
    if s == "" then 0
    else if s[0] == c then 0
    else
      var i := IndexOf(s[1..], c);
      assert forall j :: 1 <= j < i + 1 ==> s[j] == s[1..][j - 1];
      i + 1
  }

  /** s.split(c) */
  function Split(s: string, c: char): seq<string>
    decreases |s|
  {
    var i := IndexOf(s, c);
    if i == |s| then [s] else [s[..i]] + Split(s[i + 1..], c)
  }

  // --- The parsers ------------------------------------------------------------------------

  function ValueOr(v: Option<string>): string {
    match v case Some(s) => s case None => ""
  }

  /** The dict comprehension over the list form: a later key replaces an earlier one. */
  function ListTags(entries: seq<Entry>): map<string, string> {
    if entries == [] then map[]
    else
      var e := entries[|entries| - 1];
      var before := ListTags(entries[..|entries| - 1]);
      if e.Label? then before[e.key := ValueOr(e.value)] else before
  }

  /** One ";"-separated piece of the string form, if it has a colon. */
  function ParsePair(piece: string): Option<(string, string)> {
    var pair := Strip(piece);
    var i := IndexOf(pair, ':');
    if i == |pair| then None else Some((Strip(pair[..i]), Strip(pair[i + 1..])))
  }

  function PieceTags(pieces: seq<string>): map<string, string> {
    if pieces == [] then map[]
    else
      var before := PieceTags(pieces[..|pieces| - 1]);
      match ParsePair(pieces[|pieces| - 1])
      case Some((k, v)) => before[k := v]
      case None => before
  }

  function ToTags(labels: Labels): map<string, string> {
    match labels
    case Missing => map[]
    case ListForm(entries) => ListTags(entries)
    case Text(text) => if Strip(text) == "" then map[] else PieceTags(Split(text, ';'))
    case DictForm(pairs) => map k | k in pairs && pairs[k].Some? :: pairs[k].value
  }

  /** labels_to_tags */
  method LabelsToTags(labels: Labels) returns (tags: map<string, string>)
    ensures tags == ToTags(labels)
  {
    match labels {
      case Missing => tags := map[];
      case DictForm(pairs) => tags := map k | k in pairs && pairs[k].Some? :: pairs[k].value;
      case ListForm(entries) =>
        tags := map[];
        var i := 0;
        while i < |entries|
          invariant 0 <= i <= |entries| && tags == ListTags(entries[..i])
        {
          assert entries[..i + 1][..i] == entries[..i];
          if entries[i].Label? {
            tags := tags[entries[i].key := ValueOr(entries[i].value)];
          }
          i := i + 1;
        }
        assert entries[..i] == entries;
      case Text(text) =>
        tags := map[];
        if Strip(text) == "" {
          return;
        }
        var pieces := Split(text, ';');
        var i := 0;
        while i < |pieces|
          invariant 0 <= i <= |pieces| && tags == PieceTags(pieces[..i])
        {
          assert pieces[..i + 1][..i] == pieces[..i];
          var parsed := ParsePair(pieces[i]);
          if parsed.Some? {
            tags := tags[parsed.value.0 := parsed.value.1];
          }
          i := i + 1;
        }
        assert pieces[..i] == pieces;
    }
  }

  /** Position of the first entry whose key is "project", or the length. */
  ghost function FirstProject(entries: seq<Entry>): (i: nat)
    ensures i <= |entries|
    ensures i < |entries| ==> entries[i].Label? && entries[i].key == "project"
    ensures forall j :: 0 <= j < i ==> !(entries[j].Label? && entries[j].key == "project")
  {
    if entries == [] then 0
    else if entries[0].Label? && entries[0].key == "project" then 0
    else
      var i := FirstProject(entries[1..]);
      assert forall j :: 1 <= j < i + 1 ==> entries[j] == entries[1..][j - 1];
      i + 1
  }

  /** extract_project_label: the first "project" in either form, else "". A dict is ignored. */
  method ExtractProjectLabel(labels: Labels) returns (project: string)
    ensures project == ProjectOf(labels)
  {
    if labels.ListForm? {
      project := ListProject(labels.entries);
      return;
    }
    if labels.Text? && Strip(labels.text) != "" {
      var pieces := Split(labels.text, ';');
      project := TextProject(pieces);
      return;
    }
    return "";
  }

  ghost function ProjectOf(labels: Labels): string {
    match labels
    case ListForm(entries) =>
      var i := FirstProject(entries);
      if i < |entries| then ValueOr(entries[i].value) else ""
    case Text(text) =>
      if Strip(text) == "" then ""
      else
        var pieces := Split(text, ';');
        var i := FirstProjectPiece(pieces);
        if i < |pieces| then ParsePair(pieces[i]).value.1 else ""
    case _ => ""
  }

  method ListProject(entries: seq<Entry>) returns (project: string)
    ensures project == ProjectOf(ListForm(entries))
  {
    var i := 0;
    while i < |entries|
      invariant 0 <= i <= FirstProject(entries)
    {
      var e := entries[i];
      if e.Label? && e.key == "project" {
        return ValueOr(e.value);
      }
      i := i + 1;
    }
    return "";
  }

  method TextProject(pieces: seq<string>) returns (project: string)
    ensures var i := FirstProjectPiece(pieces);
      project == if i < |pieces| then ParsePair(pieces[i]).value.1 else ""
  {
    var i := 0;
    while i < |pieces|
      invariant 0 <= i <= FirstProjectPiece(pieces)
    {
      var parsed := ParsePair(pieces[i]);
      if parsed.Some? && parsed.value.0 == "project" {
        return parsed.value.1;
      }
      i := i + 1;
    }
    return "";
  }

  ghost predicate IsProjectPiece(piece: string) {
    ParsePair(piece).Some? && ParsePair(piece).value.0 == "project"
  }

  ghost function FirstProjectPiece(pieces: seq<string>): (i: nat)
    ensures i <= |pieces|
    ensures i < |pieces| ==> IsProjectPiece(pieces[i])
    ensures forall j :: 0 <= j < i ==> !IsProjectPiece(pieces[j])
  {
    FirstProjectFrom(pieces, 0)
  }

  ghost function FirstProjectFrom(pieces: seq<string>, from: nat): (i: nat)
    requires from <= |pieces|
    ensures from <= i <= |pieces|
    ensures i < |pieces| ==> IsProjectPiece(pieces[i])
    ensures forall j :: from <= j < i ==> !IsProjectPiece(pieces[j])
    decreases |pieces| - from
  {
    if from == |pieces| || IsProjectPiece(pieces[from]) then from else FirstProjectFrom(pieces, from + 1)
  }

  // --- The two forms agree -------------------------------------------------------------------

  /** The string form of one label. */
  function RenderOne(e: Entry): string {
    if e.Label? then e.key + ":" + ValueOr(e.value) else ""
  }

  function Render(entries: seq<Entry>): string {
    if entries == [] then ""
    else if |entries| == 1 then RenderOne(entries[0])
    else RenderOne(entries[0]) + ";" + Render(entries[1..])
  }

  predicate Trimmed(s: string) {
    s == "" || (!IsSpace(s[0]) && !IsSpace(s[|s| - 1]))
  }

  /** Labels the string form can carry. */
  predicate Renderable(e: Entry) {
    && e.Label?
    && Trimmed(e.key) && ':' !in e.key && ';' !in e.key
    && Trimmed(ValueOr(e.value)) && ';' !in ValueOr(e.value)
  }

  lemma StripTrimmed(s: string)
    requires Trimmed(s)
    ensures Strip(s) == s
  {
  }

  lemma IndexOfFirst(a: string, c: char, b: string)
    requires c !in a
    ensures IndexOf(a + [c] + b, c) == |a|
  {
    var s := a + [c] + b;
    assert s[|a|] == c;
    forall j | 0 <= j < |a| ensures s[j] != c { assert s[j] == a[j]; }
  }

  /** Splitting at the colon and trimming gives back the key and the value. */
  lemma ParseRendered(e: Entry)
    requires Renderable(e)
    ensures ParsePair(RenderOne(e)) == Some((e.key, ValueOr(e.value)))
  {
    var k, v := e.key, ValueOr(e.value);
    var s := RenderOne(e);
    assert s == k + [':'] + v;
    assert Trimmed(s);
    StripTrimmed(s);
    IndexOfFirst(k, ':', v);
    assert s[..|k|] == k && s[|k| + 1..] == v;
    StripTrimmed(k);
    StripTrimmed(v);
  }

  ghost predicate AllRenderable(entries: seq<Entry>) {
    forall i :: 0 <= i < |entries| ==> Renderable(entries[i])
  }

  ghost function Pieces(entries: seq<Entry>): seq<string> {
    seq(|entries|, i requires 0 <= i < |entries| => RenderOne(entries[i]))
  }

  lemma SplitFirst(a: string, c: char, b: string)
    requires c !in a
    ensures Split(a + [c] + b, c) == [a] + Split(b, c)
  {
    var s := a + [c] + b;
    IndexOfFirst(a, c, b);
    assert s[..|a|] == a && s[|a| + 1..] == b;
  }

  lemma PiecesFirst(entries: seq<Entry>)
    requires entries != []
    ensures Pieces(entries) == [RenderOne(entries[0])] + Pieces(entries[1..])
  {
  }

  lemma {:induction false} SplitRendered(entries: seq<Entry>)
    requires entries != [] && AllRenderable(entries)
    ensures Split(Render(entries), ';') == Pieces(entries)
  {
    assert Renderable(entries[0]);
    var first := RenderOne(entries[0]);
    PiecesFirst(entries);
    if |entries| == 1 {
      assert Split(first, ';') == [first] by { assert ';' !in first; }
      assert Pieces(entries[1..]) == [];
    } else {
      SplitRendered(entries[1..]);
      SplitFirst(first, ';', Render(entries[1..]));
      assert first + [';'] + Render(entries[1..]) == Render(entries);
    }
  }

  lemma {:induction false} PieceTagsAgree(entries: seq<Entry>)
    requires AllRenderable(entries)
    ensures PieceTags(Pieces(entries)) == ListTags(entries)
  {
    if entries == [] {
    } else {
      var n := |entries| - 1;
      assert Pieces(entries)[..n] == Pieces(entries[..n]);
      PieceTagsAgree(entries[..n]);
      ParseRendered(entries[n]);
    }
  }

  lemma RenderNotBlank(entries: seq<Entry>)
    requires entries != [] && AllRenderable(entries)
    ensures ':' in Render(entries) && Strip(Render(entries)) != ""
  {
    var s := Render(entries);
    assert RenderOne(entries[0]) <= s;
    assert s[|entries[0].key|] == ':';
    KeepsColon(s);
  }

  lemma {:induction false} KeepsColon(s: string)
    requires ':' in s
    ensures ':' in Strip(s)
  {
    LeftKeepsColon(s);
    RightKeepsColon(StripLeft(s));
  }

  lemma {:induction false} LeftKeepsColon(s: string)
    requires ':' in s
    ensures ':' in StripLeft(s)
  {
    if IsSpace(s[0]) {
      assert s == [s[0]] + s[1..];
      LeftKeepsColon(s[1..]);
    }
  }

  lemma {:induction false} RightKeepsColon(s: string)
    requires ':' in s
    ensures ':' in StripRight(s)
  {
    if IsSpace(s[|s| - 1]) {
      assert s == s[..|s| - 1] + [s[|s| - 1]];
      RightKeepsColon(s[..|s| - 1]);
    }
  }

  /** Any renderable labels, repeated keys included, read the same from both forms. */
  lemma FormatsAgree(entries: seq<Entry>)
    requires AllRenderable(entries)
    ensures ToTags(Text(Render(entries))) == ToTags(ListForm(entries))
    ensures ProjectOf(Text(Render(entries))) == ProjectOf(ListForm(entries))
  {
    if entries == [] {
    } else {
      RenderNotBlank(entries);
      SplitRendered(entries);
      PieceTagsAgree(entries);
      ProjectFromPieces(Render(entries), entries);
    }
  }

  lemma ProjectFromPieces(text: string, entries: seq<Entry>)
    requires AllRenderable(entries) && Strip(text) != "" && Split(text, ';') == Pieces(entries)
    ensures ProjectOf(Text(text)) == ProjectOf(ListForm(entries))
  {
    ProjectsAgree(entries);
  }

  lemma ProjectsAgree(entries: seq<Entry>)
    requires AllRenderable(entries)
    ensures FirstProjectPiece(Pieces(entries)) == FirstProject(entries)
    ensures forall i :: 0 <= i < |entries| ==> ParsePair(Pieces(entries)[i]) == Some((entries[i].key, ValueOr(entries[i].value)))
  {
    var pieces := Pieces(entries);
    forall i | 0 <= i < |entries|
      ensures ParsePair(pieces[i]) == Some((entries[i].key, ValueOr(entries[i].value)))
    {
      assert Renderable(entries[i]);
      ParseRendered(entries[i]);
    }
    forall i | 0 <= i < |entries|
      ensures IsProjectPiece(pieces[i]) <==> entries[i].Label? && entries[i].key == "project"
    {
      assert Renderable(entries[i]);
    }
  }

  // --- The extracted project and the "project" tag -------------------------------------------

  function PieceEntry(piece: string): Entry {
    match ParsePair(piece)
    case Some((k, v)) => Label(k, Some(v))
    case None => NoKey
  }

  function PieceEntries(pieces: seq<string>): seq<Entry> {
    seq(|pieces|, i requires 0 <= i < |pieces| => PieceEntry(pieces[i]))
  }

  /** The list or string form as the entries it holds. */
  function EntriesOf(labels: Labels): seq<Entry> {
    match labels
    case ListForm(entries) => entries
    case Text(text) => if Strip(text) == "" then [] else PieceEntries(Split(text, ';'))
    case _ => []
  }

  ghost predicate IsProject(e: Entry) { e.Label? && e.key == "project" }

  lemma {:induction false} PieceEntriesAgree(pieces: seq<string>)
    ensures PieceTags(pieces) == ListTags(PieceEntries(pieces))
  {
    if pieces == [] {
    } else {
      var prev, last := pieces[..|pieces| - 1], pieces[|pieces| - 1];
      PieceEntriesAgree(prev);
      PieceEntriesMore(prev, last);
      assert prev + [last] == pieces;
    }
  }

  lemma PieceEntriesMore(prev: seq<string>, last: string)
    requires PieceTags(prev) == ListTags(PieceEntries(prev))
    ensures PieceTags(prev + [last]) == ListTags(PieceEntries(prev + [last]))
  {
    var entries, e := PieceEntries(prev), PieceEntry(last);
    assert PieceEntries(prev + [last]) == entries + [e];
    assert (prev + [last])[..|prev|] == prev;
    ListTagsMore(entries, e);
  }

  lemma ListTagsMore(entries: seq<Entry>, e: Entry)
    ensures ListTags(entries + [e]) == if e.Label? then ListTags(entries)[e.key := ValueOr(e.value)] else ListTags(entries)
  {
    assert (entries + [e])[..|entries|] == entries;
  }

  lemma PieceProjects(pieces: seq<string>)
    ensures |PieceEntries(pieces)| == |pieces| && FirstProjectPiece(pieces) == FirstProject(PieceEntries(pieces))
  {
    forall i | 0 <= i < |pieces| ensures IsProjectPiece(pieces[i]) <==> IsProject(PieceEntries(pieces)[i]) {
      assert PieceEntries(pieces)[i] == PieceEntry(pieces[i]);
    }
  }

  /** A string of labels reads as the list of the entries it holds. */
  lemma ReadsAsEntries(labels: Labels)
    requires !labels.DictForm?
    ensures ToTags(labels) == ListTags(EntriesOf(labels))
    ensures ProjectOf(labels) == ProjectOf(ListForm(EntriesOf(labels)))
  {
    if labels.Text? && Strip(labels.text) != "" {
      var pieces := Split(labels.text, ';');
      PieceEntriesAgree(pieces);
        PieceProjects(pieces);
      var i := FirstProjectPiece(pieces);
      assert i < |pieces| ==> PieceEntries(pieces)[i] == PieceEntry(pieces[i]);
    }
  }

  /** Position of the last entry with this key, or -1. */
  ghost function LastWith(entries: seq<Entry>, key: string): (i: int)
    ensures -1 <= i < |entries|
    ensures i >= 0 ==> entries[i].Label? && entries[i].key == key
    ensures forall j :: i < j < |entries| ==> !(entries[j].Label? && entries[j].key == key)
  {
    if entries == [] then -1
    else if entries[|entries| - 1].Label? && entries[|entries| - 1].key == key then |entries| - 1
    else LastWith(entries[..|entries| - 1], key)
  }

  ghost function LastProject(entries: seq<Entry>): (i: int)
    ensures -1 <= i < |entries|
    ensures i >= 0 ==> IsProject(entries[i])
    ensures forall j :: i < j < |entries| ==> !IsProject(entries[j])
  {
    LastWith(entries, "project")
  }

  /** The last entry of a key gives its tag; an entry without a value gives "". */
  lemma {:induction false} LastWins(entries: seq<Entry>, key: string)
    ensures key in ListTags(entries) <==> LastWith(entries, key) >= 0
    ensures LastWith(entries, key) >= 0 ==>
      var v := entries[LastWith(entries, key)].value; ListTags(entries)[key] == if v.Some? then v.value else ""
  {
    if entries == [] {
    } else {
      LastWins(entries[..|entries| - 1], key);
    }
  }

  /** Every tag of every form: the last entry with that key in a list or string, the item of a
      dict unless it is null. */
  lemma TagsAre(labels: Labels, key: string)
    ensures key in ToTags(labels) <==>
      if labels.DictForm? then key in labels.pairs && labels.pairs[key].Some? else LastWith(EntriesOf(labels), key) >= 0
    ensures key in ToTags(labels) ==>
      ToTags(labels)[key] == (if labels.DictForm? then labels.pairs[key].value
                              else ValueOr(EntriesOf(labels)[LastWith(EntriesOf(labels), key)].value))
  {
    if !labels.DictForm? {
      ReadsAsEntries(labels);
      LastWins(EntriesOf(labels), key);
    }
  }

  function TagOrEmpty(labels: Labels): string {
    var tags := ToTags(labels);
    if "project" in tags then tags["project"] else ""
  }

  /** In a list or a string the extracted project is the "project" tag, or "" without one,
      exactly when the first and the last "project" entry carry the same value; in a dict, which
      the extraction ignores, exactly when that tag is missing or empty. */
  lemma ProjectIsTagIff(labels: Labels)
    ensures ProjectOf(labels) == TagOrEmpty(labels) <==>
      if labels.DictForm? then "project" !in labels.pairs || ValueOr(labels.pairs["project"]) == ""
      else
        var es := EntriesOf(labels);
        LastProject(es) >= 0 ==>
          FirstProject(es) < |es| && ValueOr(es[FirstProject(es)].value) == ValueOr(es[LastProject(es)].value)
  {
    if !labels.DictForm? {
      var es := EntriesOf(labels);
      ReadsAsEntries(labels);
      LastWins(es, "project");
      assert LastProject(es) >= 0 <==> FirstProject(es) < |es|;
    }
  }

  /** A list or string has a "project" tag exactly when it holds a "project" entry; without one
      the extracted project is "". */
  lemma ProjectTagIff(labels: Labels)
    requires !labels.DictForm?
    ensures "project" in ToTags(labels) <==> FirstProject(EntriesOf(labels)) < |EntriesOf(labels)|
    ensures "project" !in ToTags(labels) ==> ProjectOf(labels) == ""
  {
    var es := EntriesOf(labels);
    ReadsAsEntries(labels);
    LastWins(es, "project");
    assert LastProject(es) >= 0 <==> FirstProject(es) < |es|;
  }

  // --- Splitting and trimming ------------------------------------------------------------------

  ghost predicate Spaces(s: string) {
    forall i :: 0 <= i < |s| ==> IsSpace(s[i])
  }

  lemma SomeSpaces()
    ensures IsSpace(' ') && IsSpace('\t') && IsSpace('\n') && IsSpace('\r')
    ensures forall c :: '!' <= c <= '~' ==> !IsSpace(c)
  {
  }

  /** t is s without the spaces at both ends. */
  ghost predicate StripsTo(s: string, a: string, t: string, b: string) {
    s == a + t + b && Spaces(a) && Spaces(b) && Trimmed(t)
  }

  lemma {:induction false} StripLeftOf(a: string, rest: string)
    requires Spaces(a) && (rest == "" || !IsSpace(rest[0]))
    ensures StripLeft(a + rest) == rest
  {
    if a == "" {
      assert a + rest == rest;
    } else {
      assert (a + rest)[1..] == a[1..] + rest;
      StripLeftOf(a[1..], rest);
    }
  }

  lemma {:induction false} StripRightOf(rest: string, b: string)
    requires Spaces(b) && (rest == "" || !IsSpace(rest[|rest| - 1]))
    ensures StripRight(rest + b) == rest
  {
    if b == "" {
      assert rest + b == rest;
    } else {
      assert (rest + b)[..|rest + b| - 1] == rest + b[..|b| - 1];
      StripRightOf(rest, b[..|b| - 1]);
    }
  }

  /** Trimming removes exactly the spaces at both ends. */
  lemma StripOf(s: string, a: string, t: string, b: string)
    requires StripsTo(s, a, t, b)
    ensures Strip(s) == t
  {
    if t == "" {
      assert s == (a + b) + "";
      StripLeftOf(a + b, "");
    } else {
      assert s == a + (t + b);
      StripLeftOf(a, t + b);
      StripRightOf(t, b);
    }
  }

  /** A piece with a colon, spaces anywhere around its key and its value, gives that pair; the
      key ends at the first colon. */
  lemma PaddedPair(a: string, key: string, b: string, c: string, value: string, d: string)
    requires Spaces(a) && Spaces(b) && Spaces(c) && Spaces(d) && Trimmed(key) && Trimmed(value) && ':' !in key
    ensures ParsePair(a + key + b + ":" + c + value + d) == Some((key, value))
  {
    var left := if key == "" then "" else key + b;
    var right := if value == "" then "" else c + value;
    StripsPair(a, key, b, c, value, d);
    LeftPart(key, b);
    StripOf(right, if value == "" then "" else c, value, "");
    PairFrom(a + key + b + ":" + c + value + d, left, right);
  }

  lemma LeftPart(key: string, b: string)
    requires Spaces(b) && Trimmed(key) && ':' !in key
    ensures var left := if key == "" then "" else key + b; ':' !in left && Strip(left) == key
  {
    assert !IsSpace(':');
    StripOf(if key == "" then "" else key + b, "", key, if key == "" then "" else b);
  }

  lemma PairFrom(piece: string, left: string, right: string)
    requires Strip(piece) == left + ":" + right && ':' !in left
    ensures ParsePair(piece) == Some((Strip(left), Strip(right)))
  {
    AtColon(left, right);
  }

  lemma AtColon(left: string, right: string)
    requires ':' !in left
    ensures var pair := left + ":" + right; var i := IndexOf(pair, ':');
      i == |left| < |pair| && pair[..i] == left && pair[i + 1..] == right
  {
    IndexOfFirst(left, ':', right);
    assert left + [':'] + right == left + ":" + right;
  }

  lemma StripsPair(a: string, key: string, b: string, c: string, value: string, d: string)
    requires Spaces(a) && Spaces(b) && Spaces(c) && Spaces(d) && Trimmed(key) && Trimmed(value)
    ensures Strip(a + key + b + ":" + c + value + d)
         == (if key == "" then "" else key + b) + ":" + (if value == "" then "" else c + value)
  {
    assert !IsSpace(':');
    var left := if key == "" then "" else key + b;
    var right := if value == "" then "" else c + value;
    var before, after := if key == "" then a + b else a, if value == "" then c + d else d;
    assert a + key + b == before + left && c + value + d == right + after;
    var s := a + key + b + ":" + c + value + d;
    assert s == before + (left + ":" + right) + after;
    StripOf(s, before, left + ":" + right, after);
  }

  /** A piece without a colon gives no pair. */
  lemma {:induction false} NoColonNoPair(s: string)
    requires ':' !in s
    ensures ParsePair(s) == None
  {
    StripsWithin(s);
    assert ':' !in Strip(s);
  }

  lemma {:induction false} StripsWithin(s: string)
    ensures forall c :: c in Strip(s) ==> c in s
  {
    LeftWithin(s);
    RightWithin(StripLeft(s));
  }

  lemma {:induction false} LeftWithin(s: string)
    ensures forall c :: c in StripLeft(s) ==> c in s
  {
    if s == "" {
    } else {
      LeftWithin(s[1..]);
    }
  }

  lemma {:induction false} RightWithin(s: string)
    ensures forall c :: c in StripRight(s) ==> c in s
  {
    if s == "" {
    } else {
      RightWithin(s[..|s| - 1]);
    }
  }

  function Join(pieces: seq<string>, c: char): string {
    if pieces == [] then ""
    else if |pieces| == 1 then pieces[0]
    else pieces[0] + [c] + Join(pieces[1..], c)
  }

  /** Splitting at c gives pieces free of c that joined with c are the string again. */
  lemma {:induction false} SplitJoins(s: string, c: char)
    ensures Split(s, c) != [] && Join(Split(s, c), c) == s
    ensures forall i :: 0 <= i < |Split(s, c)| ==> c !in Split(s, c)[i]
    decreases |s|
  {
    var i := IndexOf(s, c);
    if i < |s| {
      SplitJoins(s[i + 1..], c);
      var rest := Split(s[i + 1..], c);
      assert ([s[..i]] + rest)[1..] == rest;
      assert s == s[..i] + [c] + s[i + 1..];
    }
  }
}
