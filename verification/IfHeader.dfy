/**
  The `If` header in `wsgidav/util.py`: how `parse_if_header_dict` reads it.
*/
module IfHeader {
  import opened Sequences
  import opened Wrappers
  import opened Uri

  /** A state token or an entity tag, required to match or, after "Not", not to match. */
  datatype Condition = Condition(flag: bool, isEntity: bool, value: string)

  type Conditions = seq<Condition>

  /** One list of conditions and the resource it is about. */
  datatype Entry = Entry(resource: string, conditions: Conditions)

  // ---------------------------------------------------------------- the regular expressions

  datatype Lexeme = Tag(url: string) | Group(content: string)

  /** The close of a bracket opened at the start, if there is something in between. */
  predicate Closes(s: string, open: char, close: char) {
    s != "" && s[0] == open && 1 < IndexOf(s, close) < |s|
  }

  /** `reIfSeparator.findall` */
  function FindAll(s: string): seq<Lexeme>
    decreases |s|
  {
    if s == "" then []
    else if Closes(s, '<', '>') then [Tag(s[1..IndexOf(s, '>')])] + FindAll(s[IndexOf(s, '>') + 1..])
    else if Closes(s, '(', ')') then [Group(s[1..IndexOf(s, ')')])] + FindAll(s[IndexOf(s, ')') + 1..])
    else FindAll(s[1..])
  }

  /** The length of the first run of characters that are no white space. */
  function WordLength(s: string): (k: nat)
    ensures k <= |s|
    ensures k < |s| ==> IsSpace(s[k])
    ensures forall i :: 0 <= i < k ==> !IsSpace(s[i])
  {
    if s == "" || IsSpace(s[0]) then 0 else 1 + WordLength(s[1..])
  }

  /** `reIfTagListContents.findall` */
  function Words(s: string): seq<string>
    decreases |s|
  {
    if s == "" then []
    else if IsSpace(s[0]) then Words(s[1..])
    else [s[..WordLength(s)]] + Words(s[WordLength(s)..])
  }

  /** `s.strip(chars)` */
  function StripChars(s: string, chars: string): string {
    if s != "" && s[0] in chars then StripChars(s[1..], chars)
    else if s != "" && s[|s| - 1] in chars then StripChars(s[..|s| - 1], chars)
    else s
  }

  /** `word.upper() == "NOT"` */
  predicate IsNot(word: string) {
    |word| == 3 && word[0] in "nN" && word[1] in "oO" && word[2] in "tT"
  }

  // ---------------------------------------------------------------- reading

  function Read(word: string, flag: bool): Condition {
    if word != "" && word[0] == '[' then Condition(flag, true, StripChars(word, "\"[]"))
    else Condition(flag, false, StripChars(word, "<>"))
  }

  /** The conditions in the words of one list. */
  function ReadAll(words: seq<string>, flag: bool): Conditions {
    if words == [] then []
    else if IsNot(words[0]) then ReadAll(words[1..], false)
    else [Read(words[0], flag)] + ReadAll(words[1..], true)
  }

  function Tokens(conditions: Conditions): seq<string> {
    if conditions == [] then []
    else (if conditions[0].isEntity then [] else [conditions[0].value]) + Tokens(conditions[1..])
  }

  function Entries(lexemes: seq<Lexeme>, resource: string): seq<Entry> {
    if lexemes == [] then []
    else match lexemes[0]
      case Tag(url) => Entries(lexemes[1..], url)
      case Group(content) => [Entry(resource, ReadAll(Words(content), true))] + Entries(lexemes[1..], resource)
  }

  /** The lists about a resource, in order. */
  function About(entries: seq<Entry>, resource: string): seq<Conditions> {
    if entries == [] then []
    else (if entries[0].resource == resource then [entries[0].conditions] else []) + About(entries[1..], resource)
  }

  function AllTokens(entries: seq<Entry>): seq<string> {
    if entries == [] then [] else Tokens(entries[0].conditions) + AllTokens(entries[1..])
  }

  /** The text that is read: untagged lists are about "*". */
  function TextOf(header: string): string {
    var text := StripSpace(header);
    if text != "" && text[0] == '<' then text else "<*>" + text
  }

  function EntriesOf(header: string): seq<Entry> {
    Entries(FindAll(TextOf(header)), "*")
  }

  type Table = map<string, seq<Conditions>>

  /** The table of the entries, by resource. */
  ghost predicate TableOf(table: Table, entries: seq<Entry>) {
    forall u :: (u in table <==> About(entries, u) != []) && (u in table ==> table[u] == About(entries, u))
  }

  function AddList(table: Table, resource: string, conditions: Conditions): Table {
    table[resource := (if resource in table then table[resource] else []) + [conditions]]
  }

  // ---------------------------------------------------------------- the loops

  lemma {:induction false} ReadAllSnoc(words: seq<string>, flag: bool, word: string)
    ensures ReadAll(words + [word], flag) == ReadAll(words, flag) + if IsNot(word) then [] else [Read(word, FlagAfter(words, flag))]
  {
    if words == [] {
      assert [word][1..] == [];
    } else {
      assert (words + [word])[1..] == words[1..] + [word];
      ReadAllSnoc(words[1..], !IsNot(words[0]), word);
      FlagAfterTail(words, flag);
    }
  }

  /** `testflag` after some words. */
  function FlagAfter(words: seq<string>, flag: bool): bool {
    if words == [] then flag else !IsNot(words[|words| - 1])
  }

  lemma FlagAfterTail(words: seq<string>, flag: bool)
    requires words != []
    ensures FlagAfter(words, flag) == FlagAfter(words[1..], !IsNot(words[0]))
  {
  }

  lemma {:induction false} TokensConcat(a: Conditions, b: Conditions)
    ensures Tokens(a + b) == Tokens(a) + Tokens(b)
  {
    if a == [] {
      assert a + b == b;
    } else {
      assert (a + b)[1..] == a[1..] + b;
      TokensConcat(a[1..], b);
    }
  }

  lemma {:induction false} AboutConcat(a: seq<Entry>, b: seq<Entry>, u: string)
    ensures About(a + b, u) == About(a, u) + About(b, u)
  {
    if a == [] {
      assert a + b == b;
    } else {
      assert (a + b)[1..] == a[1..] + b;
      AboutConcat(a[1..], b, u);
    }
  }

  lemma {:induction false} AllTokensConcat(a: seq<Entry>, b: seq<Entry>)
    ensures AllTokens(a + b) == AllTokens(a) + AllTokens(b)
  {
    if a == [] {
      assert a + b == b;
    } else {
      assert (a + b)[1..] == a[1..] + b;
      AllTokensConcat(a[1..], b);
    }
  }

  lemma ReadStep(words: seq<string>, k: nat)
    requires k < |words|
    ensures ReadAll(words[..k + 1], true)
            == ReadAll(words[..k], true) + if IsNot(words[k]) then [] else [Read(words[k], FlagAfter(words[..k], true))]
    ensures FlagAfter(words[..k + 1], true) == !IsNot(words[k])
  {
    ReadAllSnoc(words[..k], true, words[k]);
    assert words[..k + 1] == words[..k] + [words[k]];
  }

  lemma TokensSnoc(a: Conditions, c: Condition)
    ensures Tokens(a + [c]) == Tokens(a) + if c.isEntity then [] else [c.value]
  {
    TokensConcat(a, [c]);
    assert [c][1..] == [];
  }

  /** One condition. */
  method AddCondition(listitem: string, testflag: bool, conditions: Conditions, lockList: seq<string>)
    returns (conditions': Conditions, lockList': seq<string>)
    ensures var c := Read(listitem, testflag);
            conditions' == conditions + [c] && lockList' == lockList + if c.isEntity then [] else [c.value]
  {
    lockList' := lockList;
    if listitem != "" && listitem[0] == '[' {
      conditions' := conditions + [Condition(testflag, true, StripChars(listitem, "\"[]"))];
    } else {
      conditions' := conditions + [Condition(testflag, false, StripChars(listitem, "<>"))];
      lockList' := lockList + [StripChars(listitem, "<>")];
    }
  }

  /** The inner loop: one list. */
  method ReadList(content: string, lockList: seq<string>) returns (conditions: Conditions, lockList': seq<string>)
    ensures conditions == ReadAll(Words(content), true) && lockList' == lockList + Tokens(conditions)
  {
    conditions, lockList' := [], lockList;
    var words, testflag := Words(content), true;
    for k := 0 to |words|
      invariant conditions == ReadAll(words[..k], true) && testflag == FlagAfter(words[..k], true)
      invariant lockList' == lockList + Tokens(conditions)
    {
      var listitem := words[k];
      if !IsNot(listitem) {
        TokensSnoc(conditions, Read(listitem, testflag));
        conditions, lockList' := AddCondition(listitem, testflag, conditions, lockList');
      }
      testflag := !IsNot(listitem);
      ReadStep(words, k);
    }
    assert words[..|words|] == words;
  }

  lemma TableStep(table: Table, entries: seq<Entry>, e: Entry)
    requires TableOf(table, entries)
    ensures TableOf(AddList(table, e.resource, e.conditions), entries + [e])
  {
    var all, table' := entries + [e], AddList(table, e.resource, e.conditions);
    forall u ensures (u in table' <==> About(all, u) != []) && (u in table' ==> table'[u] == About(all, u)) {
      AboutConcat(entries, [e], u);
      AboutOne(e, u);
    }
  }

  lemma AboutOne(e: Entry, u: string)
    ensures About([e], u) == if e.resource == u then [e.conditions] else []
  {
  }

  lemma TokensStep(entries: seq<Entry>, e: Entry)
    ensures AllTokens(entries + [e]) == AllTokens(entries) + Tokens(e.conditions)
  {
    AllTokensConcat(entries, [e]);
    assert [e][1..] == [];
  }

  lemma {:induction false} EntriesSnoc(lexemes: seq<Lexeme>, resource: string, x: Lexeme)
    ensures Entries(lexemes + [x], resource) == Entries(lexemes, resource)
            + if x.Group? then [Entry(ResourceAfter(lexemes, resource), ReadAll(Words(x.content), true))] else []
  {
    if lexemes == [] {
      assert [x][1..] == [];
    } else {
      assert (lexemes + [x])[1..] == lexemes[1..] + [x];
      EntriesSnoc(lexemes[1..], if lexemes[0].Tag? then lexemes[0].url else resource, x);
    }
  }

  /** `resource1` after some lexemes. */
  function ResourceAfter(lexemes: seq<Lexeme>, resource: string): string {
    if lexemes == [] then resource else ResourceAfter(lexemes[1..], if lexemes[0].Tag? then lexemes[0].url else resource)
  }

  lemma {:induction false} ResourceAfterSnoc(lexemes: seq<Lexeme>, resource: string, x: Lexeme)
    ensures ResourceAfter(lexemes + [x], resource) == if x.Tag? then x.url else ResourceAfter(lexemes, resource)
  {
    if lexemes == [] {
      assert [x][1..] == [];
    } else {
      assert (lexemes + [x])[1..] == lexemes[1..] + [x];
      ResourceAfterSnoc(lexemes[1..], if lexemes[0].Tag? then lexemes[0].url else resource, x);
    }
  }

  /** `parse_if_header_dict`: the lists by resource, and all lock tokens. */
  method ParseIfHeader(header: Option<string>) returns (ifDict: Option<Table>, ifLockList: seq<string>)
    ensures header.None? ==> ifDict == None && ifLockList == []
    ensures header.Some? ==> ifDict.Some? && TableOf(ifDict.value, EntriesOf(header.value)) && ifLockList == AllTokens(EntriesOf(header.value))
  {
    ifLockList := [];
    if header.None? { return None, []; }
    var iftext := StripSpace(header.value);
    if !(iftext != "" && iftext[0] == '<') {
      iftext := "<*>" + iftext;
    }
    var table: Table := map[];
    var resource1, found := "*", FindAll(iftext);
    ghost var entries: seq<Entry> := [];
    for k := 0 to |found|
      invariant resource1 == ResourceAfter(found[..k], "*") && entries == Entries(found[..k], "*")
      invariant TableOf(table, entries) && ifLockList == AllTokens(entries)
    {
      ResourceAfterSnoc(found[..k], "*", found[k]);
      EntriesSnoc(found[..k], "*", found[k]);
      assert found[..k + 1] == found[..k] + [found[k]];
      match found[k] {
        case Tag(url) =>
          resource1 := url;
          assert entries + [] == entries;
        case Group(content) =>
          var conditions;
          conditions, ifLockList := ReadList(content, ifLockList);
          TableStep(table, entries, Entry(resource1, conditions));
          TokensStep(entries, Entry(resource1, conditions));
          table := AddList(table, resource1, conditions);
          entries := entries + [Entry(resource1, conditions)];
      }
    }
    assert found[..|found|] == found;
    ifDict := Some(table);
  }
}
