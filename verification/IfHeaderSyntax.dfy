/**
  From the syntax of an `If` header (section 10.4 of RFC 4918) to what the server decides:
  reading a header gives back its lists exactly if it is legible, and
  `test_if_header_dict` holds exactly if one of the lists for the URL does.
*/
module IfHeaderSyntax {
  import opened Sequences
  import opened Wrappers
  import opened Uri
  import opened IfHeader

  /** A tag and the lists behind it. Untagged lists are about "*". */
  datatype Production = Production(resource: string, lists: seq<Conditions>)

  /** A word and the white space behind it. */
  datatype Piece = Piece(word: string, gap: string)

  /** A condition as it is written: "Not" in some spelling, if it is negated, an entity tag perhaps as a weak one, and the white space behind it. */
  datatype Written = Written(condition: Condition, weak: bool, not: Piece, gap: string)

  /** A list with the white space before its first condition and the text behind its parenthesis. */
  datatype WrittenList = WrittenList(lead: string, items: seq<Written>, sep: string)

  datatype WrittenProduction = WrittenProduction(resource: string, sep: string, lists: seq<WrittenList>)

  predicate AllSpace(s: string) {
    forall i :: 0 <= i < |s| ==> IsSpace(s[i])
  }

  predicate Separator(s: string) {
    forall i :: 0 <= i < |s| ==> s[i] != '<' && s[i] != '('
  }

  function Delimiters(c: Condition): string {
    if c.isEntity then "\"[]" else "<>"
  }

  /** A value without white space and parenthesis, and that of an entity tag without quotes. */
  predicate Plain(c: Condition) {
    && NoSpace(c.value) && (forall i :: 0 <= i < |c.value| ==> c.value[i] != ')')
    && (c.isEntity ==> forall i :: 0 <= i < |c.value| ==> c.value[i] != '"')
  }

  /** No delimiter at either end. */
  predicate BareEnds(v: string, chars: string) {
    v != "" ==> v[0] !in chars && v[|v| - 1] !in chars
  }

  /** Not a weak entity tag, and nothing at the ends of the value that is taken for a delimiter. */
  predicate Clear(w: Written) {
    !(w.condition.isEntity && w.weak) && BareEnds(w.condition.value, Delimiters(w.condition))
  }

  predicate WellWritten(items: seq<Written>) {
    forall i :: 0 <= i < |items| ==>
      Plain(items[i].condition) && AllSpace(items[i].gap) && IsNot(items[i].not.word) && AllSpace(items[i].not.gap)
  }

  predicate WellWrittenList(w: WrittenList) {
    w.items != [] && WellWritten(w.items) && AllSpace(w.lead) && Separator(w.sep)
  }

  predicate WellWrittenProduction(p: WrittenProduction) {
    && p.resource != "" && (forall i :: 0 <= i < |p.resource| ==> p.resource[i] != '>') && Separator(p.sep)
    && forall i :: 0 <= i < |p.lists| ==> WellWrittenList(p.lists[i])
  }

  predicate WellWrittenHeader(ps: seq<WrittenProduction>) {
    forall i :: 0 <= i < |ps| ==> WellWrittenProduction(ps[i])
  }

  // ---------------------------------------------------------------- printing

  function Text(w: Written): string {
    var v := w.condition.value;
    if !w.condition.isEntity then "<" + v + ">" else if w.weak then "[W/\"" + v + "\"]" else "[\"" + v + "\"]"
  }

  function Pieces(items: seq<Written>): seq<Piece> {
    if items == [] then []
    else (if items[0].condition.flag then [] else [items[0].not]) + [Piece(Text(items[0]), items[0].gap)] + Pieces(items[1..])
  }

  function Run(ps: seq<Piece>): string {
    if ps == [] then "" else ps[0].word + (ps[0].gap + Run(ps[1..]))
  }

  function Content(w: WrittenList): string {
    w.lead + Run(Pieces(w.items))
  }

  function PrintLists(ls: seq<WrittenList>): string {
    if ls == [] then "" else "(" + Content(ls[0]) + ")" + (ls[0].sep + PrintLists(ls[1..]))
  }

  function Print(ps: seq<WrittenProduction>): string {
    if ps == [] then ""
    else "<" + ps[0].resource + ">" + (ps[0].sep + (PrintLists(ps[0].lists) + Print(ps[1..])))
  }

  // ---------------------------------------------------------------- what is meant

  function Meant(items: seq<Written>): Conditions {
    if items == [] then [] else [items[0].condition] + Meant(items[1..])
  }

  function MeantLists(ls: seq<WrittenList>): seq<Conditions> {
    if ls == [] then [] else [Meant(ls[0].items)] + MeantLists(ls[1..])
  }

  function MeantProductions(ps: seq<WrittenProduction>): seq<Production> {
    if ps == [] then [] else [Production(ps[0].resource, MeantLists(ps[0].lists))] + MeantProductions(ps[1..])
  }

  /** The lists with their resources, in order. */
  function Flatten(ps: seq<Production>): seq<Entry> {
    if ps == [] then [] else EntriesFor(ps[0].resource, ps[0].lists) + Flatten(ps[1..])
  }

  function EntriesFor(resource: string, ls: seq<Conditions>): (es: seq<Entry>)
    ensures |es| == |ls|
  {
    if ls == [] then [] else [Entry(resource, ls[0])] + EntriesFor(resource, ls[1..])
  }

  /** There is white space between the words of a list. */
  predicate Spaced(ps: seq<Piece>) {
    forall i :: 0 <= i < |ps| - 1 ==> ps[i].gap != ""
  }

  /** And all its conditions are clear. */
  predicate Legible(items: seq<Written>) {
    Spaced(Pieces(items)) && forall i :: 0 <= i < |items| ==> Clear(items[i])
  }

  predicate AllLegible(ls: seq<WrittenList>) {
    forall i :: 0 <= i < |ls| ==> Legible(ls[i].items)
  }

  predicate HeaderLegible(ps: seq<WrittenProduction>) {
    forall i :: 0 <= i < |ps| ==> AllLegible(ps[i].lists)
  }

  // ---------------------------------------------------------------- one condition

  lemma {:induction false} StripTail(v: string, b: string, chars: string)
    requires forall i :: 0 <= i < |b| ==> b[i] in chars
    ensures StripChars(v + b, chars) == StripChars(v, chars)
    decreases |v| + |b|
  {
    if b == "" {
      assert v + b == v;
    } else if v == "" {
      assert v + b == b && b[1..] == v + b[1..];
      StripTail(v, b[1..], chars);
    } else if v[0] in chars {
      assert (v + b)[1..] == v[1..] + b;
      StripTail(v[1..], b, chars);
    } else {
      var c := b[..|b| - 1];
      assert (v + b)[..|v + b| - 1] == v + c;
      StripTail(v, c, chars);
    }
  }

  lemma {:induction false} StripAround(a: string, v: string, b: string, chars: string)
    requires forall i :: 0 <= i < |a| ==> a[i] in chars
    requires forall i :: 0 <= i < |b| ==> b[i] in chars
    ensures StripChars(a + v + b, chars) == StripChars(v, chars)
    decreases |a|
  {
    if a == "" {
      assert a + v + b == v + b;
      StripTail(v, b, chars);
    } else {
      assert (a + v + b)[1..] == a[1..] + v + b;
      StripAround(a[1..], v, b, chars);
    }
  }

  lemma {:induction false} StripIsShorter(v: string, chars: string)
    ensures |StripChars(v, chars)| <= |v|
    decreases |v|
  {
    if v != "" && v[0] in chars {
      StripIsShorter(v[1..], chars);
    } else if v != "" && v[|v| - 1] in chars {
      StripIsShorter(v[..|v| - 1], chars);
    }
  }

  lemma {:induction false} StripNothingIff(v: string, chars: string)
    ensures StripChars(v, chars) == v <==> BareEnds(v, chars)
  {
    if v != "" {
      StripIsShorter(v[1..], chars);
      StripIsShorter(v[..|v| - 1], chars);
    }
  }

  /** What starts and goes on with other characters is kept up to the last of them. */
  lemma {:induction false} StripKeeps(s: string, chars: string, i: nat)
    requires i < |s| && s[0] !in chars && s[i] !in chars
    ensures i < |StripChars(s, chars)| && StripChars(s, chars) <= s
    decreases |s|
  {
    if s[|s| - 1] in chars { StripKeeps(s[..|s| - 1], chars, i); }
  }

  /** A weak tag is never read as its value: the quote inside stays, or nothing but the mark. */
  lemma {:induction false} WeakIsMisread(v: string)
    requires forall i :: 0 <= i < |v| ==> v[i] != '"'
    ensures StripChars("[W/\"" + v + "\"]", "\"[]") != v
  {
    var chars, s := "\"[]", "W/\"" + v;
    assert "[W/\"" + v + "\"]" == "[" + s + "\"]";
    StripAround("[", s, "\"]", chars);
    var r := StripChars(s, chars);
    StripKeeps(s, chars, 1);
    assert r[0] == s[0] == 'W';
    if i :| 0 <= i < |v| && v[i] !in chars {
      assert s[3 + i] == v[i];
      StripKeeps(s, chars, 3 + i);
      assert r[2] == s[2] == '"';
    }
  }

  /** A condition is read as it is meant exactly if it is clear. */
  lemma {:induction false} ReadTextIff(w: Written)
    requires Plain(w.condition)
    ensures Read(Text(w), w.condition.flag) == w.condition <==> Clear(w)
    ensures !IsNot(Text(w)) && Read(Text(w), w.condition.flag).flag == w.condition.flag
  {
    var v := w.condition.value;
    if w.condition.isEntity && w.weak {
      WeakIsMisread(v);
    } else if w.condition.isEntity {
      StripAround("[\"", v, "\"]", "\"[]");
      StripNothingIff(v, "\"[]");
    } else {
      StripAround("<", v, ">", "<>");
      StripNothingIff(v, "<>");
    }
  }

  /** A weak tag is read with its mark, an opaque one with brackets at its ends without them. */
  lemma {:induction false} MisreadInputs()
    ensures StripChars("[W/\"x\"]", "\"[]") == "W/\"x" && StripChars("[\"[x]\"]", "\"[]") == "x"
  {
    StripAround("[", "W/\"x", "\"]", "\"[]");
    StripNothingIff("W/\"x", "\"[]");
    assert "[" + "W/\"x" + "\"]" == "[W/\"x\"]";
    StripAround("[\"[", "x", "]\"]", "\"[]");
    StripNothingIff("x", "\"[]");
    assert "[\"[" + "x" + "]\"]" == "[\"[x]\"]";
  }

  predicate IsWord(w: string) {
    w != "" && forall i :: 0 <= i < |w| ==> !IsSpace(w[i]) && w[i] != ')'
  }

  lemma TextIsWord(w: Written)
    requires Plain(w.condition)
    ensures IsWord(Text(w))
  {
  }

  // ---------------------------------------------------------------- one list

  function WordsIn(ps: seq<Piece>): seq<string> {
    if ps == [] then [] else [ps[0].word] + WordsIn(ps[1..])
  }

  predicate AreWords(ps: seq<Piece>) {
    forall i :: 0 <= i < |ps| ==> IsWord(ps[i].word) && AllSpace(ps[i].gap)
  }

  lemma {:induction false} PiecesAreWords(items: seq<Written>)
    requires WellWritten(items)
    ensures AreWords(Pieces(items))
  {
    if items != [] {
      PiecesAreWords(items[1..]);
      TextIsWord(items[0]);
    }
  }

  lemma {:induction false} PiecesWeight(items: seq<Written>)
    ensures |Pieces(items)| == Weight(Meant(items))
  {
    if items != [] {
      PiecesWeight(items[1..]);
      assert Meant(items)[1..] == Meant(items[1..]);
    }
  }

  lemma TextIsNotNot(w: Written)
    ensures !IsNot(Text(w)) && forall flag :: Read(Text(w), flag).flag == flag
  {
    assert Text(w)[0] == '<' || Text(w)[0] == '[';
  }

  /** The conditions as they are read from words kept apart. */
  function ReadItems(items: seq<Written>): Conditions {
    if items == [] then [] else [Read(Text(items[0]), items[0].condition.flag)] + ReadItems(items[1..])
  }

  lemma {:induction false} ReadPieces(items: seq<Written>)
    requires WellWritten(items)
    ensures ReadAll(WordsIn(Pieces(items)), true) == ReadItems(items)
  {
    if items != [] {
      var w, more := items[0], Pieces(items[1..]);
      ReadPieces(items[1..]);
      TextIsNotNot(w);
      var rest := [Piece(Text(w), w.gap)] + more;
      assert rest[1..] == more;
      ReadAllMore(Text(w), w.condition.flag, WordsIn(more));
      if w.condition.flag {
        assert Pieces(items) == rest;
      } else {
        assert Pieces(items) == [w.not] + rest && ([w.not] + rest)[1..] == rest;
        assert WordsIn(Pieces(items))[1..] == WordsIn(rest);
      }
    }
  }

  lemma {:induction false} ReadItemsIff(items: seq<Written>)
    requires WellWritten(items)
    ensures ReadItems(items) == Meant(items) <==> forall i :: 0 <= i < |items| ==> Clear(items[i])
  {
    if items != [] {
      ReadItemsIff(items[1..]);
      ReadTextIff(items[0]);
      assert ReadItems(items)[1..] == ReadItems(items[1..]) && Meant(items)[1..] == Meant(items[1..]);
      assert forall i :: 0 < i < |items| ==> items[i] == items[1..][i - 1];
    }
  }

  /** The number of words a list of conditions takes. */
  function Weight(l: Conditions): nat {
    if l == [] then 0 else (if l[0].flag then 1 else 2) + Weight(l[1..])
  }

  /** Fewer words never make the same conditions. */
  lemma {:induction false} WeightRead(words: seq<string>, flag: bool)
    ensures Weight(ReadAll(words, flag)) <= |words| + if flag then 0 else 1
  {
    if words != [] {
      WeightRead(words[1..], !IsNot(words[0]));
    }
  }

  lemma ReadAllMore(word: string, flag: bool, rest: seq<string>)
    requires !IsNot(word)
    ensures ReadAll([word] + rest, flag) == [Read(word, flag)] + ReadAll(rest, true)
  {
  }

  lemma WordLengthUnique(s: string, k: nat)
    requires k <= |s| && (k < |s| ==> IsSpace(s[k])) && forall i :: 0 <= i < k ==> !IsSpace(s[i])
    ensures WordLength(s) == k
  {
  }

  lemma {:induction false} WordThenGap(w: string, rest: string)
    requires IsWord(w) && (rest == "" || IsSpace(rest[0]))
    ensures Words(w + rest) == [w] + Words(rest)
  {
    WordLengthUnique(w + rest, |w|);
    assert (w + rest)[0] == w[0];
    assert (w + rest)[..|w|] == w && (w + rest)[|w|..] == rest;
  }

  /** Two words without white space between them are one. */
  lemma {:induction false} WordThenWord(w: string, rest: string)
    requires IsWord(w) && rest != "" && !IsSpace(rest[0])
    ensures |Words(w + rest)| == |Words(rest)|
  {
    var k := WordLength(rest);
    WordLengthUnique(w + rest, |w| + k);
    assert (w + rest)[0] == w[0];
    assert (w + rest)[|w| + k..] == rest[k..];
  }

  lemma {:induction false} GapThenRest(g: string, rest: string)
    requires AllSpace(g)
    ensures Words(g + rest) == Words(rest)
  {
    if g == "" {
      assert g + rest == rest;
    } else {
      assert (g + rest)[1..] == g[1..] + rest;
      GapThenRest(g[1..], rest);
    }
  }

  lemma {:induction false} RunShape(ps: seq<Piece>)
    requires AreWords(ps)
    ensures ps != [] ==> Run(ps) != "" && !IsSpace(Run(ps)[0])
    ensures forall i :: 0 <= i < |Run(ps)| ==> Run(ps)[i] != ')'
  {
    if ps != [] { RunShape(ps[1..]); }
  }

  /** The words of a run are its pieces, or fewer if two of them touch. */
  lemma {:induction false} WordsOfRun(ps: seq<Piece>)
    requires AreWords(ps)
    ensures if Spaced(ps) then Words(Run(ps)) == WordsIn(ps) else |Words(Run(ps))| < |ps|
    ensures |Words(Run(ps))| <= |ps|
  {
    if ps != [] {
      var w, g, rest := ps[0].word, ps[0].gap, Run(ps[1..]);
      WordsOfRun(ps[1..]);
      SpacedTail(ps);
      if g == "" && |ps| > 1 {
        RunShape(ps[1..]);
        assert g + rest == rest;
        WordThenWord(w, rest);
      } else {
        assert g + rest != "" ==> IsSpace((g + rest)[0]);
        WordThenGap(w, g + rest);
        GapThenRest(g, rest);
      }
    }
  }

  lemma SpacedTail(ps: seq<Piece>)
    requires ps != []
    ensures Spaced(ps) <==> (|ps| > 1 ==> ps[0].gap != "") && Spaced(ps[1..])
  {
    assert forall i :: 0 < i < |ps| ==> ps[i] == ps[1..][i - 1];
  }

  /** The conditions as they are read. */
  function AsRead(w: WrittenList): Conditions {
    ReadAll(Words(Content(w)), true)
  }

  /** A list is read as it is meant exactly if there is white space between its words and its conditions are clear. */
  lemma {:induction false} ListReadIff(w: WrittenList)
    requires WellWrittenList(w)
    ensures AsRead(w) == Meant(w.items) <==> Legible(w.items)
  {
    var ps := Pieces(w.items);
    PiecesAreWords(w.items);
    PiecesWeight(w.items);
    ReadPieces(w.items);
    ReadItemsIff(w.items);
    GapThenRest(w.lead, Run(ps));
    WordsOfRun(ps);
    WeightRead(Words(Run(ps)), true);
  }

  // ---------------------------------------------------------------- the whole text

  lemma FindGroup(content: string, rest: string)
    requires content != "" && forall i :: 0 <= i < |content| ==> content[i] != ')'
    ensures FindAll("(" + content + ")" + rest) == [Group(content)] + FindAll(rest)
  {
    var s, k := "(" + content + ")" + rest, |content| + 1;
    assert forall i :: 0 < i < k ==> s[i] == content[i - 1];
    IndexOfUnique(s, ')', k);
    assert s[0] == '(' && s[1..k] == content && s[k + 1..] == rest;
  }

  lemma FindTag(url: string, rest: string)
    requires url != "" && forall i :: 0 <= i < |url| ==> url[i] != '>'
    ensures FindAll("<" + url + ">" + rest) == [Tag(url)] + FindAll(rest)
  {
    var s, k := "<" + url + ">" + rest, |url| + 1;
    assert forall i :: 0 < i < k ==> s[i] == url[i - 1];
    IndexOfUnique(s, '>', k);
    assert s[0] == '<' && s[1..k] == url && s[k + 1..] == rest;
  }

  lemma {:induction false} FindNothing(sep: string, rest: string)
    requires forall i :: 0 <= i < |sep| ==> sep[i] != '<' && sep[i] != '('
    ensures FindAll(sep + rest) == FindAll(rest)
  {
    if sep == "" {
      assert sep + rest == rest;
    } else {
      assert (sep + rest)[1..] == sep[1..] + rest && (sep + rest)[0] == sep[0];
      FindNothing(sep[1..], rest);
    }
  }

  lemma Regroup(a: string, b: string, c: string, d: string)
    ensures (a + (b + c)) + d == a + (b + (c + d))
  {
  }

  lemma Assoc(a: seq<Entry>, b: seq<Entry>, c: seq<Entry>)
    ensures (a + b) + c == a + (b + c)
  {
  }

  function ReadLists(u: string, ls: seq<WrittenList>): (es: seq<Entry>)
    ensures |es| == |ls|
  {
    if ls == [] then [] else [Entry(u, AsRead(ls[0]))] + ReadLists(u, ls[1..])
  }

  function ReadProductions(ps: seq<WrittenProduction>): seq<Entry> {
    if ps == [] then [] else ReadLists(ps[0].resource, ps[0].lists) + ReadProductions(ps[1..])
  }

  /** What is found of printed lists. */
  lemma {:induction false} ListsFound(ls: seq<WrittenList>, rest: string, u: string)
    requires forall i :: 0 <= i < |ls| ==> WellWrittenList(ls[i])
    ensures Entries(FindAll(PrintLists(ls) + rest), u) == ReadLists(u, ls) + Entries(FindAll(rest), u)
  {
    if ls == [] {
      assert "" + rest == rest;
    } else {
      var tail := PrintLists(ls[1..]);
      ListsFound(ls[1..], rest, u);
      Regroup("(" + Content(ls[0]) + ")", ls[0].sep, tail, rest);
      ListFound(ls[0], tail + rest, u);
      Assoc([Entry(u, AsRead(ls[0]))], ReadLists(u, ls[1..]), Entries(FindAll(rest), u));
    }
  }

  lemma ListFound(w: WrittenList, rest: string, u: string)
    requires WellWrittenList(w)
    ensures Entries(FindAll("(" + Content(w) + ")" + (w.sep + rest)), u) == [Entry(u, AsRead(w))] + Entries(FindAll(rest), u)
  {
    PiecesAreWords(w.items);
    RunShape(Pieces(w.items));
    FindGroup(Content(w), w.sep + rest);
    FindNothing(w.sep, rest);
    EntriesOfGroup(Content(w), FindAll(rest), u);
  }

  lemma EntriesOfGroup(content: string, more: seq<Lexeme>, u: string)
    ensures Entries([Group(content)] + more, u) == [Entry(u, ReadAll(Words(content), true))] + Entries(more, u)
  {
  }

  lemma EntriesOfTag(url: string, more: seq<Lexeme>, u: string)
    ensures Entries([Tag(url)] + more, u) == Entries(more, url)
  {
  }

  lemma {:induction false} ProductionsFound(ps: seq<WrittenProduction>, u: string)
    requires WellWrittenHeader(ps)
    ensures Entries(FindAll(Print(ps)), u) == ReadProductions(ps)
  {
    if ps != [] {
      var p, rest := ps[0], Print(ps[1..]);
      var lists := PrintLists(p.lists) + rest;
      FindTag(p.resource, p.sep + lists);
      FindNothing(p.sep, lists);
      EntriesOfTag(p.resource, FindAll(lists), u);
      ListsFound(p.lists, rest, p.resource);
      ProductionsFound(ps[1..], p.resource);
    }
  }

  lemma SameHalves(a: seq<Entry>, b: seq<Entry>, c: seq<Entry>, d: seq<Entry>)
    requires |a| == |c|
    ensures a + b == c + d <==> a == c && b == d
  {
    if a + b == c + d {
      assert (a + b)[..|a|] == a && (c + d)[..|a|] == c;
      assert (a + b)[|a|..] == b && (c + d)[|a|..] == d;
    }
  }

  lemma {:induction false} ListsReadIff(u: string, ls: seq<WrittenList>)
    requires forall i :: 0 <= i < |ls| ==> WellWrittenList(ls[i])
    ensures |MeantLists(ls)| == |ls|
    ensures ReadLists(u, ls) == EntriesFor(u, MeantLists(ls)) <==> AllLegible(ls)
  {
    if ls != [] {
      ListsReadIff(u, ls[1..]);
      ListReadIff(ls[0]);
      var meant := MeantLists(ls[1..]);
      assert MeantLists(ls)[1..] == meant;
      SameHalves([Entry(u, AsRead(ls[0]))], ReadLists(u, ls[1..]), [Entry(u, Meant(ls[0].items))], EntriesFor(u, meant));
      assert forall i :: 0 < i < |ls| ==> ls[i] == ls[1..][i - 1];
    }
  }

  lemma {:induction false} ProductionsReadIff(ps: seq<WrittenProduction>)
    requires WellWrittenHeader(ps)
    ensures ReadProductions(ps) == Flatten(MeantProductions(ps)) <==> HeaderLegible(ps)
  {
    if ps != [] {
      var p, meant := ps[0], MeantProductions(ps[1..]);
      ProductionsReadIff(ps[1..]);
      ListsReadIff(p.resource, p.lists);
      assert MeantProductions(ps)[1..] == meant;
      SameHalves(ReadLists(p.resource, p.lists), ReadProductions(ps[1..]), EntriesFor(p.resource, MeantLists(p.lists)), Flatten(meant));
      assert forall i :: 0 < i < |ps| ==> ps[i] == ps[1..][i - 1];
    }
  }

  /**
    A tagged header, with white space around it, reads back as its lists in order, exactly if
    there is white space between the words of every list and its conditions are clear.
  */
  lemma {:induction false} TaggedRoundTrip(ps: seq<WrittenProduction>, header: string)
    requires WellWrittenHeader(ps) && ps != [] && StripSpace(header) == Print(ps)
    ensures EntriesOf(header) == Flatten(MeantProductions(ps)) <==> HeaderLegible(ps)
  {
    ProductionsFound(ps, "*");
    ProductionsReadIff(ps);
    assert Print(ps)[0] == '<';
  }

  lemma StarInFront(text: string)
    ensures Entries(FindAll("<*>" + text), "*") == Entries(FindAll(text), "*")
  {
    FindTag("*", text);
    assert "<*>" + text == "<" + "*" + ">" + text;
    EntriesOfTag("*", FindAll(text), "*");
  }

  /** An untagged header reads back as lists about "*", under the same condition. */
  lemma {:induction false} UntaggedRoundTrip(ls: seq<WrittenList>, header: string)
    requires ls != [] && (forall i :: 0 <= i < |ls| ==> WellWrittenList(ls[i])) && StripSpace(header) == PrintLists(ls)
    ensures EntriesOf(header) == Flatten([Production("*", MeantLists(ls))]) <==> AllLegible(ls)
  {
    var text := PrintLists(ls);
    assert text[0] == '(';
    assert text + "" == text;
    StarInFront(text);
    ListsFound(ls, "", "*");
    ListsReadIff("*", ls);
    assert [Production("*", MeantLists(ls))][1..] == [];
    assert EntriesFor("*", MeantLists(ls)) + [] == EntriesFor("*", MeantLists(ls));
  }

  /** "Not" is recognised however it is capitalised, and nothing else. */
  lemma {:induction false} NotSpellings(word: string)
    ensures IsNot(word) <==> word in {"not", "noT", "nOt", "nOT", "Not", "NoT", "NOt", "NOT"}
  {
    if IsNot(word) { assert word == [word[0], word[1], word[2]]; }
  }

  /** "Not <t>" in a list asks for the token not to be there, "<t>" for it to be. */
  lemma {:induction false} NotIsRead(n: string)
    requires n in {"not", "Not", "NOT"}
    ensures ReadAll(Words(n + (" " + "<t>")), true) == [Condition(false, false, "t")]
    ensures ReadAll(Words("<t>"), true) == [Condition(true, false, "t")]
  {
    NotSpellings(n);
    NotIsWord(n);
    TokenIsRead();
    WordThenGap(n, " " + "<t>");
    GapThenRest(" ", "<t>");
    assert ([n] + ["<t>"])[1..] == ["<t>"] && ["<t>"][1..] == [];
  }

  lemma {:induction false} NotIsWord(n: string)
    requires IsNot(n)
    ensures IsWord(n)
  {
  }

  lemma {:induction false} TokenIsRead()
    ensures Words("<t>") == ["<t>"] && !IsNot("<t>") && forall flag :: Read("<t>", flag) == Condition(flag, false, "t")
  {
    assert IsWord("<t>");
    WordThenGap("<t>", "");
    assert "<t>" + "" == "<t>";
    StripAround("<", "t", ">", "<>");
    StripNothingIff("t", "<>");
    assert "<" + "t" + ">" == "<t>";
  }

  // ---------------------------------------------------------------- the decision

  /** What is known about the resource. */
  datatype Known = Known(supportsEtag: bool, lockTokens: seq<string>, etag: Option<string>)

  /** Entity tags do not count for resources without them. */
  predicate Holds(c: Condition, k: Known) {
    if c.isEntity then k.supportsEtag ==> (k.etag == Some(c.value) <==> c.flag)
    else c.value in k.lockTokens <==> c.flag
  }

  predicate AllHold(l: Conditions, k: Known) {
    forall i :: 0 <= i < |l| ==> Holds(l[i], k)
  }

  predicate SomeListHolds(ls: seq<Conditions>, k: Known) {
    exists i :: 0 <= i < |ls| && AllHold(ls[i], k)
  }

  predicate Accepts(table: Table, url: string, k: Known) {
    if url in table then SomeListHolds(table[url], k)
    else if "*" in table then SomeListHolds(table["*"], k)
    else true
  }

  /** `test_if_header_dict` */
  method TestIfHeader(table: Table, url: string, k: Known) returns (passed: bool)
    ensures passed <==> Accepts(table, url, k)
  {
    var listTest;
    if url in table {
      listTest := table[url];
    } else if "*" in table {
      listTest := table["*"];
    } else {
      return true;
    }
    for i := 0 to |listTest|
      invariant !SomeListHolds(listTest[..i], k)
    {
      var conds, matchfailed, j := listTest[i], false, 0;
      while j < |conds| && !matchfailed
        invariant 0 <= j <= |conds|
        invariant matchfailed ==> !AllHold(conds, k)
        invariant !matchfailed ==> AllHold(conds[..j], k)
      {
        var c := conds[j];
        var testresult :=
          if c.isEntity && k.supportsEtag then k.etag == Some(c.value)
          else if c.isEntity then c.flag
          else c.value in k.lockTokens;
        if testresult != c.flag { matchfailed := true; }
        j := j + 1;
      }
      if !matchfailed {
        assert conds[..|conds|] == conds;
        return true;
      }
    }
    assert listTest[..|listTest|] == listTest;
    return false;
  }

  /** A table whose lists for the URL, or for "*" where there are none for the URL, are these. */
  predicate Consults(table: Table, url: string, ls: seq<Conditions>) {
    if url in table then table[url] == ls else "*" in table && table["*"] == ls
  }

  /** A single token condition passes exactly if the token is among those of the locks, after "Not" if it is not. */
  lemma {:induction false} TokenDecides(table: Table, url: string, k: Known, token: string, flag: bool)
    requires Consults(table, url, [[Condition(flag, false, token)]])
    ensures Accepts(table, url, k) <==> if flag then token in k.lockTokens else token !in k.lockTokens
  {
    OneCondition(table, url, k, Condition(flag, false, token));
  }

  /** A single entity tag passes exactly if it is the resource's, after "Not" if it is not; without entity tags it always passes. */
  lemma {:induction false} TagDecides(table: Table, url: string, k: Known, tag: string, flag: bool)
    requires Consults(table, url, [[Condition(flag, true, tag)]])
    ensures Accepts(table, url, k) <==> !k.supportsEtag || if flag then k.etag == Some(tag) else k.etag != Some(tag)
  {
    OneCondition(table, url, k, Condition(flag, true, tag));
  }

  lemma OneCondition(table: Table, url: string, k: Known, c: Condition)
    requires Consults(table, url, [[c]])
    ensures Accepts(table, url, k) <==> Holds(c, k)
  {
    assert [[c]][0] == [c] && [c][0] == c;
  }

  /** A list passes exactly if each of its conditions would pass alone. */
  lemma {:induction false} EachDecides(table: Table, url: string, k: Known, l: Conditions)
    requires Consults(table, url, [l])
    ensures Accepts(table, url, k) <==> forall i :: 0 <= i < |l| ==> Accepts(map[url := [[l[i]]]], url, k)
  {
    forall i | 0 <= i < |l| ensures Accepts(map[url := [[l[i]]]], url, k) <==> Holds(l[i], k) {
      OneCondition(map[url := [[l[i]]]], url, k, l[i]);
    }
    assert [l][0] == l;
  }

  /** Several lists pass exactly if one of them would pass alone; without lists for the URL or for "*" the header always passes. */
  lemma {:induction false} OneListDecides(table: Table, url: string, k: Known, ls: seq<Conditions>)
    requires Consults(table, url, ls)
    ensures Accepts(table, url, k) <==> exists i :: 0 <= i < |ls| && Accepts(map[url := [ls[i]]], url, k)
    ensures Accepts(map[], url, k)
  {
    forall i | 0 <= i < |ls| ensures Accepts(map[url := [ls[i]]], url, k) <==> AllHold(ls[i], k) {
      assert [ls[i]][0] == ls[i];
    }
  }

  predicate Speaks(ps: seq<Production>, u: string, l: Conditions) {
    exists i :: 0 <= i < |ps| && ps[i].resource == u && l in ps[i].lists
  }

  lemma {:induction false} AboutLists(ls: seq<Conditions>, r: string, u: string)
    ensures About(EntriesFor(r, ls), u) == if r == u then ls else []
  {
    if ls != [] {
      AboutLists(ls[1..], r, u);
      AboutConcat([Entry(r, ls[0])], EntriesFor(r, ls[1..]), u);
      AboutOne(Entry(r, ls[0]), u);
    }
  }

  lemma {:induction false} SpokenAbout(ps: seq<Production>, u: string, l: Conditions)
    ensures l in About(Flatten(ps), u) <==> Speaks(ps, u, l)
  {
    if ps != [] {
      SpokenAbout(ps[1..], u, l);
      AboutConcat(EntriesFor(ps[0].resource, ps[0].lists), Flatten(ps[1..]), u);
      AboutLists(ps[0].lists, ps[0].resource, u);
      if Speaks(ps[1..], u, l) {
        var i :| 0 <= i < |ps[1..]| && ps[1..][i].resource == u && l in ps[1..][i].lists;
        assert ps[i + 1] == ps[1..][i];
      }
      if Speaks(ps, u, l) {
        var i :| 0 <= i < |ps| && ps[i].resource == u && l in ps[i].lists;
        if i > 0 { assert ps[1..][i - 1] == ps[i]; }
      }
    }
  }

  ghost predicate SpeaksOf(ps: seq<Production>, u: string) {
    exists l :: Speaks(ps, u, l)
  }

  ghost predicate OneHolds(ps: seq<Production>, u: string, k: Known) {
    exists l :: Speaks(ps, u, l) && AllHold(l, k)
  }

  /** What the syntax of the header says of the decision. */
  lemma HeaderMeans(table: Table, ps: seq<Production>, url: string, k: Known)
    requires TableOf(table, Flatten(ps))
    ensures Accepts(table, url, k) <==>
              if SpeaksOf(ps, url) then OneHolds(ps, url, k)
              else SpeaksOf(ps, "*") ==> OneHolds(ps, "*", k)
  {
    EntryMeans(table, ps, url, k);
    EntryMeans(table, ps, "*", k);
  }

  lemma EntryMeans(table: Table, ps: seq<Production>, u: string, k: Known)
    requires TableOf(table, Flatten(ps))
    ensures u in table <==> SpeaksOf(ps, u)
    ensures u in table ==> (SomeListHolds(table[u], k) <==> OneHolds(ps, u, k))
  {
    forall l ensures l in About(Flatten(ps), u) <==> Speaks(ps, u, l) { SpokenAbout(ps, u, l); }
    if u in table {
      assert About(Flatten(ps), u)[0] in About(Flatten(ps), u);
      if SomeListHolds(table[u], k) {
        var i :| 0 <= i < |table[u]| && AllHold(table[u][i], k);
        assert table[u][i] in About(Flatten(ps), u);
      }
    }
  }

  predicate Names(l: Conditions, token: string) {
    exists j :: 0 <= j < |l| && !l[j].isEntity && l[j].value == token
  }

  lemma {:induction false} TokenNamed(l: Conditions, token: string)
    ensures token in Tokens(l) <==> Names(l, token)
  {
    if l != [] {
      TokenNamed(l[1..], token);
      if Names(l[1..], token) {
        var j :| 0 <= j < |l[1..]| && !l[1..][j].isEntity && l[1..][j].value == token;
        assert l[j + 1] == l[1..][j];
      }
      if Names(l, token) {
        var j :| 0 <= j < |l| && !l[j].isEntity && l[j].value == token;
        if j > 0 { assert l[1..][j - 1] == l[j]; }
      }
    }
  }

  /** The lock tokens a header submits are those its conditions name, negated ones included. */
  lemma {:induction false} TokenSubmittedIff(entries: seq<Entry>, token: string)
    ensures token in AllTokens(entries) <==> exists i :: 0 <= i < |entries| && Names(entries[i].conditions, token)
  {
    if entries != [] {
      TokenSubmittedIff(entries[1..], token);
      TokenNamed(entries[0].conditions, token);
      if i :| 0 <= i < |entries[1..]| && Names(entries[1..][i].conditions, token) {
        assert entries[i + 1] == entries[1..][i];
      }
      if i :| 0 <= i < |entries| && Names(entries[i].conditions, token) {
        if i > 0 { assert entries[1..][i - 1] == entries[i]; }
      }
    }
  }
}
