/** The texts of the SCRAM handshake: `key=value` messages, header parameters and escaped user names. */
module ScramText {
  import opened Results
  import Text

  type Params = map<string, string>

  /** `params.get(key, "")` */
  function Param(params: Params, key: string): string {
    if key in params then params[key] else ""
  }

  /** Position of the first `=`. */
  function EqualsAt(s: string): (r: Option<nat>)
    ensures r.Some? ==> r.value < |s| && s[r.value] == '=' && '=' !in s[..r.value]
    ensures r.None? ==> '=' !in s
  {
    if s == "" then None
    else if s[0] == '=' then Some(0)
    else
      match EqualsAt(s[1..])
      case None => None
      case Some(i) =>
        assert s[..i + 1] == [s[0]] + s[1..][..i];
        Some(i + 1)
  }

  // ---- Messages --------------------------------------------------------------------------

  function AddPair(params: Params, part: string): Params {
    match EqualsAt(part)
    case None => params
    case Some(i) => params[part[..i] := part[i + 1..]]
  }

  function PairsIn(parts: seq<string>): Params {
    if parts == [] then map[] else AddPair(PairsIn(parts[..|parts| - 1]), parts[|parts| - 1])
  }

  /** The pairs of a message; of a repeated key the last one counts. */
  function ParsedMsg(msg: string): Params { PairsIn(Text.Split(msg, ',')) }

  method ParseScramMsg(msg: string) returns (params: Params)
    ensures params == ParsedMsg(msg)
  {
    params := map[];
    var parts := Text.Split(msg, ',');
    for i := 0 to |parts|
      invariant params == PairsIn(parts[..i])
    {
      assert parts[..i + 1][..i] == parts[..i];
      var at := EqualsAt(parts[i]);
      if at.Some? {
        params := params[parts[i][..at.value] := parts[i][at.value + 1..]];
      }
    }
    assert parts[..|parts|] == parts;
  }

  // ---- Headers ----------------------------------------------------------------------------

  function Strip(s: string): string
    decreases |s|
  {
    if s == "" then ""
    else if Text.IsSpace(s[0]) then Strip(s[1..])
    else if Text.IsSpace(s[|s| - 1]) then Strip(s[..|s| - 1])
    else s
  }

  function AddTrimmed(params: Params, part: string): Params {
    var pair := Strip(part);
    match EqualsAt(pair)
    case None => params
    case Some(i) => params[Strip(pair[..i]) := Strip(pair[i + 1..])]
  }

  function TrimmedIn(parts: seq<string>): Params {
    if parts == [] then map[] else AddTrimmed(TrimmedIn(parts[..|parts| - 1]), parts[|parts| - 1])
  }

  predicate NoSpace(c: char) { !Text.IsSpace(c) }

  /** The header without its scheme: the first word is one if it has no `=` and more follows. */
  function WithoutScheme(header: string): string {
    var start := Text.SkipWhile(header, 0, Text.IsSpace);
    var end := Text.SkipWhile(header, start, NoSpace);
    var rest := Text.SkipWhile(header, end, Text.IsSpace);
    if start < end && rest < |header| && EqualsAt(header[start..end]).None? then header[rest..] else header
  }

  function HeaderParams(header: string): Params { TrimmedIn(Text.Split(WithoutScheme(header), ',')) }

  method ParseHeaderParams(header: string) returns (params: Params)
    ensures params == HeaderParams(header)
  {
    params := map[];
    if header == "" {
      assert WithoutScheme("") == "" && Text.Split("", ',') == [""] && [""][..0] == [];
      return;
    }
    var parts := Text.Split(WithoutScheme(header), ',');
    for i := 0 to |parts|
      invariant params == TrimmedIn(parts[..i])
    {
      assert parts[..i + 1][..i] == parts[..i];
      var pair := Strip(parts[i]);
      var at := EqualsAt(pair);
      if at.Some? {
        params := params[Strip(pair[..at.value]) := Strip(pair[at.value + 1..])];
      }
    }
    assert parts[..|parts|] == parts;
  }

  // ---- What the parsers make of composed texts --------------------------------------------------

  datatype Pair = Pair(key: string, val: string)

  function PairText(p: Pair): string { p.key + "=" + p.val }

  /** Usable in a message: no comma, and no `=` in the key. */
  ghost predicate MsgPair(p: Pair) { ',' !in p.key && '=' !in p.key && ',' !in p.val }

  /** Usable in a header too: no white space. */
  ghost predicate HeaderPair(p: Pair) {
    && MsgPair(p)
    && (forall i :: 0 <= i < |p.key| ==> !Text.IsSpace(p.key[i]))
    && (forall i :: 0 <= i < |p.val| ==> !Text.IsSpace(p.val[i]))
  }

  function PairTexts(ps: seq<Pair>): (r: seq<string>)
    ensures |r| == |ps|
  {
    if ps == [] then [] else PairTexts(ps[..|ps| - 1]) + [PairText(ps[|ps| - 1])]
  }

  function MapOf(ps: seq<Pair>): Params {
    if ps == [] then map[] else MapOf(ps[..|ps| - 1])[ps[|ps| - 1].key := ps[|ps| - 1].val]
  }

  lemma EqualsAfterKey(key: string, val: string)
    requires '=' !in key
    ensures EqualsAt(key + "=" + val) == Some(|key|)
    ensures (key + "=" + val)[..|key|] == key && (key + "=" + val)[|key| + 1..] == val
  {
    var s := key + "=" + val;
    assert s[..|key|] == key && s[|key|] == '=';
    assert forall i :: 0 <= i < |key| ==> s[i] == key[i];
  }

  lemma {:induction false} PairTextsApart(ps: seq<Pair>)
    requires forall i :: 0 <= i < |ps| ==> MsgPair(ps[i])
    ensures forall i :: 0 <= i < |ps| ==> PairTexts(ps)[i] == PairText(ps[i]) && ',' !in PairTexts(ps)[i]
    decreases |ps|
  {
    if ps != [] {
      PairTextsApart(ps[..|ps| - 1]);
    }
  }

  lemma {:induction false} PairsRead(ps: seq<Pair>)
    requires forall i :: 0 <= i < |ps| ==> MsgPair(ps[i])
    ensures PairsIn(PairTexts(ps)) == MapOf(ps)
    decreases |ps|
  {
    if ps != [] {
      var p := ps[|ps| - 1];
      PairsRead(ps[..|ps| - 1]);
      EqualsAfterKey(p.key, p.val);
      var texts := PairTexts(ps);
      assert texts[..|texts| - 1] == PairTexts(ps[..|ps| - 1]);
    }
  }

  /** A message composed of pairs is parsed into them. */
  lemma MsgReads(ps: seq<Pair>)
    requires ps != [] && forall i :: 0 <= i < |ps| ==> MsgPair(ps[i])
    ensures ParsedMsg(Text.Join(PairTexts(ps), ",")) == MapOf(ps)
  {
    PairTextsApart(ps);
    Text.SplitJoin(PairTexts(ps), ',');
    PairsRead(ps);
  }

  lemma {:induction false} StripClean(s: string)
    requires forall i :: 0 <= i < |s| ==> !Text.IsSpace(s[i])
    ensures Strip(s) == s && Strip(" " + s) == s
  {
    assert (" " + s)[1..] == s;
  }

  lemma EqualsIsNoSpace()
    ensures !Text.IsSpace('=')
  {
  }

  lemma TrimmedPair(params: Params, p: Pair)
    requires HeaderPair(p)
    ensures AddTrimmed(params, PairText(p)) == params[p.key := p.val]
    ensures AddTrimmed(params, " " + PairText(p)) == params[p.key := p.val]
  {
    hide Strip, Text.IsSpace;
    EqualsIsNoSpace();
    var s := PairText(p);
    assert forall i :: 0 <= i < |s| ==> s[i] == (if i < |p.key| then p.key[i] else if i == |p.key| then '=' else p.val[i - |p.key| - 1]);
    StripClean(s);
    StripClean(p.key);
    StripClean(p.val);
    EqualsAfterKey(p.key, p.val);
  }

  /** The parts of a header: each pair after the first follows a space. */
  function SpacedTexts(ps: seq<Pair>): (r: seq<string>)
    ensures |r| == |ps|
  {
    if ps == [] then []
    else SpacedTexts(ps[..|ps| - 1]) + [(if |ps| == 1 then "" else " ") + PairText(ps[|ps| - 1])]
  }

  /** The parameters of a header: pairs separated by a comma and a space. */
  function ParamText(ps: seq<Pair>): string { Text.Join(SpacedTexts(ps), ",") }

  lemma {:induction false} SpacedApart(ps: seq<Pair>)
    requires forall i :: 0 <= i < |ps| ==> HeaderPair(ps[i])
    ensures forall i :: 0 <= i < |ps| ==> ',' !in SpacedTexts(ps)[i]
    decreases |ps|
  {
    if ps != [] {
      SpacedApart(ps[..|ps| - 1]);
    }
  }

  lemma {:induction false} TrimmedRead(ps: seq<Pair>)
    requires forall i :: 0 <= i < |ps| ==> HeaderPair(ps[i])
    ensures TrimmedIn(SpacedTexts(ps)) == MapOf(ps)
    decreases |ps|
  {
    hide HeaderPair, AddTrimmed, PairText;
    if ps != [] {
      var p := ps[|ps| - 1];
      TrimmedRead(ps[..|ps| - 1]);
      TrimmedPair(MapOf(ps[..|ps| - 1]), p);
      assert "" + PairText(p) == PairText(p);
      var texts := SpacedTexts(ps);
      assert texts[..|texts| - 1] == SpacedTexts(ps[..|ps| - 1]);
    }
  }

  /** A scheme name: one word without `=`. */
  ghost predicate SchemeName(s: string) {
    s != "" && '=' !in s && forall i :: 0 <= i < |s| ==> !Text.IsSpace(s[i])
  }

  lemma SchemeDropped(scheme: string, rest: string)
    requires SchemeName(scheme) && rest != "" && !Text.IsSpace(rest[0])
    ensures WithoutScheme(scheme + " " + rest) == rest
  {
    var header := scheme + " " + rest;
    var n := |scheme|;
    assert header[0] == scheme[0] && header[n] == ' ';
    assert header[n + 1..] == rest && header[..n] == scheme;
    Text.SkipRun(header, 0, "", Text.IsSpace);
    Text.SkipRun(header, 0, scheme, NoSpace);
    assert header[n..n + 1] == " ";
    Text.SkipRun(header, n, " ", Text.IsSpace);
    assert header[0..n] == scheme;
  }

  /** Without a scheme the first word, up to the first blank, has an `=`. */
  lemma NoScheme(first: string, rest: string)
    requires '=' in first && forall i :: 0 <= i < |first| ==> !Text.IsSpace(first[i])
    requires rest != "" ==> Text.IsSpace(rest[0])
    ensures WithoutScheme(first + rest) == first + rest
  {
    var header := first + rest;
    Text.SkipRun(header, 0, "", Text.IsSpace);
    assert header[0..|first|] == first;
    assert first != "" && header[0] == first[0];
    Text.SkipRun(header, 0, first, NoSpace);
  }

  lemma {:induction false} SpacedFirst(ps: seq<Pair>)
    requires ps != []
    ensures SpacedTexts(ps)[0] == PairText(ps[0])
    decreases |ps|
  {
    if |ps| == 1 {
      assert "" + PairText(ps[0]) == PairText(ps[0]);
    } else {
      SpacedFirst(ps[..|ps| - 1]);
    }
  }

  /** The parameters alone, split at the commas and trimmed. */
  lemma ParamsSplit(ps: seq<Pair>)
    requires ps != [] && forall i :: 0 <= i < |ps| ==> HeaderPair(ps[i])
    ensures TrimmedIn(Text.Split(ParamText(ps), ',')) == MapOf(ps)
  {
    hide HeaderPair, Text.Split, Text.Join, TrimmedIn, SpacedTexts;
    SpacedApart(ps);
    Text.SplitJoin(SpacedTexts(ps), ',');
    TrimmedRead(ps);
  }

  lemma ParamStart(ps: seq<Pair>)
    requires ps != [] && HeaderPair(ps[0])
    ensures ParamText(ps) != "" && !Text.IsSpace(ParamText(ps)[0])
  {
    hide SpacedTexts;
    SpacedFirst(ps);
    var p, texts := ps[0], SpacedTexts(ps);
    assert texts[0] == p.key + "=" + p.val;
    assert !Text.IsSpace('=');
    assert Text.Join(texts, ",")[..|texts[0]|] == texts[0];
    assert texts[0][0] == if p.key == "" then '=' else p.key[0];
  }

  /** A header with a scheme and parameters is parsed into its parameters. */
  lemma HeaderReads(scheme: string, ps: seq<Pair>)
    requires SchemeName(scheme) && ps != [] && forall i :: 0 <= i < |ps| ==> HeaderPair(ps[i])
    ensures HeaderParams(scheme + " " + ParamText(ps)) == MapOf(ps)
  {
    hide SchemeName, HeaderPair, Text.Split, WithoutScheme, ParamText, TrimmedIn, MapOf, Text.IsSpace;
    ParamStart(ps);
    SchemeDropped(scheme, ParamText(ps));
    ParamsSplit(ps);
  }

  /** So is a header of two parameters alone. */
  lemma ParamsRead(p: Pair, q: Pair)
    requires HeaderPair(p) && HeaderPair(q)
    ensures HeaderParams(ParamText([p, q])) == MapOf([p, q])
  {
    hide Text.Split, WithoutScheme, TrimmedIn, MapOf;
    TwoSpaced(p, q);
    var first, rest := PairText(p) + ",", " " + PairText(q);
    assert first == p.key + "=" + p.val + ",";
    assert first[|p.key|] == '=';
    assert !Text.IsSpace(',') && !Text.IsSpace('=') && Text.IsSpace(' ');
    NoScheme(first, rest);
    ParamsSplit([p, q]);
  }

  lemma TwoJoined(a: string, b: string)
    ensures Text.Join([a, b], ",") == a + "," + b
  {
    assert [a, b][1..] == [b];
    assert Text.Join([b], ",") == b;
  }

  lemma TwoSpaced(p: Pair, q: Pair)
    ensures ParamText([p, q]) == PairText(p) + "," + (" " + PairText(q))
  {
    hide PairText;
    assert [p, q][..1] == [p] && [p][..0] == [];
    assert SpacedTexts([p]) == SpacedTexts([]) + ["" + PairText(p)];
    assert "" + PairText(p) == PairText(p);
    assert SpacedTexts([p, q]) == [PairText(p), " " + PairText(q)];
    TwoJoined(PairText(p), " " + PairText(q));
  }

  lemma ThreeSpaced(p: Pair, q: Pair, r: Pair)
    ensures ParamText([p, q, r]) == PairText(p) + "," + (" " + PairText(q)) + "," + (" " + PairText(r))
  {
    hide PairText;
    assert [p, q, r][..2] == [p, q] && [p, q][..1] == [p] && [p][..0] == [];
    assert SpacedTexts([p]) == SpacedTexts([]) + ["" + PairText(p)];
    assert "" + PairText(p) == PairText(p);
    assert SpacedTexts([p, q]) == [PairText(p), " " + PairText(q)];
    var texts := SpacedTexts([p, q, r]);
    assert texts == [PairText(p), " " + PairText(q), " " + PairText(r)];
    assert texts[1..] == [" " + PairText(q), " " + PairText(r)];
    TwoJoined(" " + PairText(q), " " + PairText(r));
    Text.Assoc(PairText(p) + ",", " " + PairText(q) + ",", " " + PairText(r));
  }

  lemma OneSpaced(p: Pair)
    ensures ParamText([p]) == PairText(p)
  {
    hide PairText;
    assert [p][..0] == [];
    assert SpacedTexts([p]) == SpacedTexts([]) + ["" + PairText(p)];
    assert "" + PairText(p) == PairText(p);
  }

  // ---- Other spellings --------------------------------------------------------------------------------

  /** The text between two commas of a header: a parameter with white space around its key and its value, or anything
      without `=`. */
  datatype Piece =
    | Spaced(before: string, key: string, mid: string, gap: string, val: string, after: string)
    | Noise(text: string)

  ghost predicate AllSpace(s: string) { Text.AllOf(s, Text.IsSpace) }

  /** Not empty, and no white space at its ends. */
  ghost predicate Trimmed(s: string) { s != "" && !Text.IsSpace(s[0]) && !Text.IsSpace(s[|s| - 1]) }

  ghost predicate LegalPiece(p: Piece) {
    match p
    case Spaced(before, key, mid, gap, val, after) =>
      && AllSpace(before) && AllSpace(mid) && AllSpace(gap) && AllSpace(after)
      && Trimmed(key) && Trimmed(val) && '=' !in key && ',' !in key && ',' !in val
    case Noise(text) => '=' !in text && ',' !in text
  }

  function PieceText(p: Piece): string {
    match p
    case Spaced(before, key, mid, gap, val, after) => before + (key + mid + "=" + (gap + val)) + after
    case Noise(text) => text
  }

  function PieceTexts(ps: seq<Piece>): (r: seq<string>)
    ensures |r| == |ps|
  {
    if ps == [] then [] else PieceTexts(ps[..|ps| - 1]) + [PieceText(ps[|ps| - 1])]
  }

  /** The parameters among the pieces; of a repeated key the last one counts. */
  function PieceMap(ps: seq<Piece>): Params {
    if ps == [] then map[]
    else
      var p, front := ps[|ps| - 1], PieceMap(ps[..|ps| - 1]);
      if p.Spaced? then front[p.key := p.val] else front
  }

  lemma {:induction false} StripSpaces(a: string, s: string, b: string)
    requires AllSpace(a) && AllSpace(b) && Trimmed(s)
    ensures Strip(a + s + b) == s
    decreases |a| + |b|
  {
    var t := a + s + b;
    if a != "" {
      assert t[0] == a[0] && t[1..] == a[1..] + s + b;
      StripSpaces(a[1..], s, b);
    } else if b != "" {
      assert t[0] == s[0] && t[|t| - 1] == b[|b| - 1] && t[..|t| - 1] == a + s + b[..|b| - 1];
      StripSpaces(a, s, b[..|b| - 1]);
    } else {
      assert t == s;
    }
  }

  lemma {:induction false} StripNoEquals(s: string)
    requires '=' !in s
    ensures '=' !in Strip(s)
    decreases |s|
  {
    if s != "" {
      StripNoEquals(s[1..]);
      StripNoEquals(s[..|s| - 1]);
    }
  }

  lemma SpacesNoEquals(s: string)
    requires AllSpace(s)
    ensures '=' !in s && ',' !in s
  {
  }

  lemma SpacedReads(params: Params, p: Piece)
    requires p.Spaced? && LegalPiece(p)
    ensures AddTrimmed(params, PieceText(p)) == params[p.key := p.val]
  {
    hide Strip;
    var left, right := p.key + p.mid, p.gap + p.val;
    var inner := left + "=" + right;
    SpacesNoEquals(p.mid);
    assert inner[0] == p.key[0] && inner[|inner| - 1] == p.val[|p.val| - 1];
    StripSpaces(p.before, inner, p.after);
    EqualsAfterKey(left, right);
    StripSpaces("", p.key, p.mid);
    assert "" + p.key + p.mid == left;
    StripSpaces(p.gap, p.val, "");
    assert p.gap + p.val + "" == right;
  }

  lemma {:induction false} PiecesRead(ps: seq<Piece>)
    requires forall i :: 0 <= i < |ps| ==> LegalPiece(ps[i])
    ensures TrimmedIn(PieceTexts(ps)) == PieceMap(ps)
    ensures forall i :: 0 <= i < |ps| ==> ',' !in PieceTexts(ps)[i]
    decreases |ps|
  {
    hide Strip, PieceText;
    if ps != [] {
      var front, p := ps[..|ps| - 1], ps[|ps| - 1];
      PiecesRead(front);
      assert PieceTexts(ps)[..|ps| - 1] == PieceTexts(front);
      PieceApart(p);
      if p.Spaced? {
        SpacedReads(PieceMap(front), p);
      } else {
        NoiseIgnored(PieceMap(front), p);
      }
    }
  }

  lemma PieceApart(p: Piece)
    requires LegalPiece(p)
    ensures ',' !in PieceText(p)
  {
    if p.Spaced? {
      SpacesNoEquals(p.before);
      SpacesNoEquals(p.mid);
      SpacesNoEquals(p.gap);
      SpacesNoEquals(p.after);
    }
  }

  lemma NoiseIgnored(params: Params, p: Piece)
    requires p.Noise? && LegalPiece(p)
    ensures AddTrimmed(params, PieceText(p)) == params
  {
    hide Strip;
    StripNoEquals(p.text);
  }

  /** A header spelled with white space anywhere between its tokens and with parts that are no parameters still gives its
      parameters. */
  lemma SpelledHeaderReads(lead: string, scheme: string, gap: string, ps: seq<Piece>)
    requires AllSpace(lead) && SchemeName(scheme) && AllSpace(gap) && gap != ""
    requires ps != [] && forall i :: 0 <= i < |ps| ==> LegalPiece(ps[i])
    requires var rest := Text.Join(PieceTexts(ps), ","); rest != "" && !Text.IsSpace(rest[0])
    ensures HeaderParams(lead + (scheme + (gap + Text.Join(PieceTexts(ps), ",")))) == PieceMap(ps)
  {
    hide SchemeName, LegalPiece, Text.Split, Text.Join, WithoutScheme, TrimmedIn, PieceTexts, PieceMap;
    PiecesRead(ps);
    Text.SplitJoin(PieceTexts(ps), ',');
    SpelledSchemeDropped(lead, scheme, gap, Text.Join(PieceTexts(ps), ","));
  }

  lemma SpelledSchemeDropped(lead: string, scheme: string, gap: string, rest: string)
    requires AllSpace(lead) && SchemeName(scheme) && AllSpace(gap) && gap != "" && rest != "" && !Text.IsSpace(rest[0])
    ensures WithoutScheme(lead + (scheme + (gap + rest))) == rest
  {
    hide *;
    SpelledAt(lead, scheme, gap, rest);
    SchemeSkipped(lead + (scheme + (gap + rest)), lead, scheme, gap, rest);
  }

  lemma SpelledAt(lead: string, scheme: string, gap: string, rest: string)
    ensures var header := lead + (scheme + (gap + rest));
            && Text.At(header, 0, lead) && Text.At(header, |lead|, scheme)
            && Text.At(header, |lead| + |scheme|, gap) && Text.At(header, |lead| + |scheme| + |gap|, rest)
            && |header| == |lead| + |scheme| + |gap| + |rest|
  {
    hide Text.At;
    var header := lead + (scheme + (gap + rest));
    WholeHeader(header);
    Text.AtSplit(header, 0, lead, scheme + (gap + rest));
    Text.AtSplit(header, |lead|, scheme, gap + rest);
    Text.AtSplit(header, |lead| + |scheme|, gap, rest);
  }

  lemma SchemeSkipped(header: string, lead: string, scheme: string, gap: string, rest: string)
    requires AllSpace(lead) && SchemeName(scheme) && AllSpace(gap) && gap != "" && rest != "" && !Text.IsSpace(rest[0])
    requires Text.At(header, 0, lead) && Text.At(header, |lead|, scheme)
    requires Text.At(header, |lead| + |scheme|, gap) && Text.At(header, |lead| + |scheme| + |gap|, rest)
    requires |header| == |lead| + |scheme| + |gap| + |rest|
    ensures WithoutScheme(header) == rest
  {
    hide Text.At, Text.SkipWhile, Text.IsSpace, EqualsAt;
    var m, n := |lead|, |lead| + |scheme|;
    Text.AtIndex(header, m, scheme, 0);
    Text.AtIndex(header, n, gap, 0);
    Text.AtIndex(header, n + |gap|, rest, 0);
    Text.SkipRun(header, 0, lead, Text.IsSpace);
    Text.SkipRun(header, m, scheme, NoSpace);
    Text.SkipRun(header, n, gap, Text.IsSpace);
    Text.AtSlice(header, m, scheme);
    Text.AtSlice(header, n + |gap|, rest);
    NoEqualsIn(scheme);
  }

  lemma WholeHeader(s: string)
    ensures Text.At(s, 0, s)
  {
    assert s[0..|s|] == s;
  }

  lemma NoEqualsIn(s: string)
    requires '=' !in s
    ensures EqualsAt(s).None?
  {
  }

  /** A message with parts that have no `=` gives the pairs of the others. */
  lemma {:induction false} MsgPairsRead(parts: seq<string>, ps: seq<Option<Pair>>)
    requires |parts| == |ps|
    requires forall i :: 0 <= i < |ps| ==>
               match ps[i] case None => '=' !in parts[i] case Some(p) => MsgPair(p) && parts[i] == PairText(p)
    ensures PairsIn(parts) == OptionMap(ps)
    decreases |ps|
  {
    if ps != [] {
      var last := ps[|ps| - 1];
      MsgPairsRead(parts[..|parts| - 1], ps[..|ps| - 1]);
      if last.Some? {
        EqualsAfterKey(last.value.key, last.value.val);
      }
    }
  }

  function OptionMap(ps: seq<Option<Pair>>): Params {
    if ps == [] then map[]
    else
      var front := OptionMap(ps[..|ps| - 1]);
      match ps[|ps| - 1]
      case None => front
      case Some(p) => front[p.key := p.val]
  }

  /** Any message of comma-free parts: those with `=` are its pairs, the others count for nothing. */
  lemma NoisyMsgReads(parts: seq<string>, ps: seq<Option<Pair>>)
    requires parts != [] && |parts| == |ps| && forall i :: 0 <= i < |parts| ==> ',' !in parts[i]
    requires forall i :: 0 <= i < |ps| ==>
               match ps[i] case None => '=' !in parts[i] case Some(p) => MsgPair(p) && parts[i] == PairText(p)
    ensures ParsedMsg(Text.Join(parts, ",")) == OptionMap(ps)
  {
    Text.SplitJoin(parts, ',');
    MsgPairsRead(parts, ps);
  }

  // ---- User names ------------------------------------------------------------------------------------

  /** `=` becomes `=3D`, then `,` becomes `=2C`. */
  function EscapeUser(s: string): (r: string)
    ensures ',' !in r
  {
    if s == "" then ""
    else (if s[0] == '=' then "=3D" else if s[0] == ',' then "=2C" else [s[0]]) + EscapeUser(s[1..])
  }

  /** A user name as section 5.1 of RFC 5802 reads it: `=2C` is a comma, `=3D` an equals sign, no other `=` may occur. */
  function UserOf(s: string): Option<string> {
    if s == "" then Some("")
    else if s[0] == '=' then
      if |s| < 3 || s[1..3] !in ["2C", "3D"] then None
      else
        match UserOf(s[3..])
        case None => None
        case Some(rest) => Some([if s[1] == '2' then ',' else '='] + rest)
    else
      match UserOf(s[1..])
      case None => None
      case Some(rest) => Some([s[0]] + rest)
  }

  /** An escaped user name is read as the user name. */
  lemma {:induction false} UserReads(s: string)
    ensures UserOf(EscapeUser(s)) == Some(s)
  {
    if s != "" {
      UserReads(s[1..]);
      var t := EscapeUser(s);
      assert s == [s[0]] + s[1..];
      if s[0] == '=' || s[0] == ',' {
        var code := if s[0] == '=' then "=3D" else "=2C";
        assert t == code + EscapeUser(s[1..]);
        assert t[0] == code[0] && t[1..3] == code[1..] && t[3..] == EscapeUser(s[1..]);
      } else {
        assert t[1..] == EscapeUser(s[1..]);
      }
    }
  }

  /** No two user names escape to the same text. */
  lemma {:induction false} EscapeUserInjective(a: string, b: string)
    requires EscapeUser(a) == EscapeUser(b)
    ensures a == b
    decreases |a| + |b|
  {
    if a != "" && b != "" {
      var x, y := EscapeUser(a), EscapeUser(b);
      if a[0] == '=' || a[0] == ',' {
        assert x[0] == '=' && x[3..] == EscapeUser(a[1..]) && x[1] == (if a[0] == '=' then '3' else '2');
      } else {
        assert x[0] == a[0] && x[1..] == EscapeUser(a[1..]);
      }
      if b[0] == '=' || b[0] == ',' {
        assert y[0] == '=' && y[3..] == EscapeUser(b[1..]) && y[1] == (if b[0] == '=' then '3' else '2');
      } else {
        assert y[0] == b[0] && y[1..] == EscapeUser(b[1..]);
      }
      assert a[0] == b[0];
      EscapeUserInjective(a[1..], b[1..]);
      assert a == [a[0]] + a[1..] && b == [b[0]] + b[1..];
    }
  }
}
