/** The lookup dispatcher: one character and a table selector in, an
    optional telegraph code out. */
module Telegraph {
  import opened Options
  import opened Tables

  /** Which table(s) a query consults. */
  datatype Table =
    | Both  // Traditional first, Simplified as the fallback
    | TW    // the Traditional table only
    | CN    // the Simplified table only

  /** True when the selector consults the Traditional table. */
  predicate ConsultsTW(table: Table) {
    table != CN
  }

  /** True when the selector consults the Simplified table. */
  predicate ConsultsCN(table: Table) {
    table != TW
  }

  /** The telegraph code of `character` under the selector `table`, or `None`.
      Any string is accepted; an empty or multi-character one simply finds
      nothing when the tables are keyed by single characters. */
  function ToTelegraph(tw: CodeTable, cn: CodeTable, character: string, table: Table): (r: Option<nat>)
    ensures r.Some? ==>
              || (ConsultsTW(table) && character in tw && r.value == tw[character])
              || (ConsultsCN(table) && character in cn && r.value == cn[character])
    ensures r.None? <==>
              && (ConsultsTW(table) ==> character !in tw)
              && (ConsultsCN(table) ==> character !in cn)
  {
    match table
    case Both => Get(tw, character).OrElse(Get(cn, character))
    case TW => Get(tw, character)
    case CN => Get(cn, character)
  }

  /** With `TW`, the answer is the Traditional table's entry, and the
      Simplified table plays no part. */
  lemma TraditionalOnly(tw: CodeTable, cn: CodeTable, character: string)
    ensures ToTelegraph(tw, cn, character, TW) == if character in tw then Some(tw[character]) else None
    ensures forall other: CodeTable :: ToTelegraph(tw, other, character, TW) == ToTelegraph(tw, cn, character, TW)
  {
  }

  /** With `CN`, the answer is the Simplified table's entry, and the
      Traditional table plays no part. */
  lemma SimplifiedOnly(tw: CodeTable, cn: CodeTable, character: string)
    ensures ToTelegraph(tw, cn, character, CN) == if character in cn then Some(cn[character]) else None
    ensures forall other: CodeTable :: ToTelegraph(other, cn, character, CN) == ToTelegraph(tw, cn, character, CN)
  {
  }

  /** A character the Traditional table knows is answered from it under
      `Both`, whatever the Simplified table holds for it. */
  lemma TraditionalPrecedence(tw: CodeTable, cn: CodeTable, character: string)
    requires character in tw
    ensures ToTelegraph(tw, cn, character, Both) == Some(tw[character])
    ensures forall other: CodeTable :: ToTelegraph(tw, other, character, Both) == Some(tw[character])
  {
  }

  /** A character the Traditional table lacks is answered under `Both`
      exactly as under `CN`. */
  lemma SimplifiedFallback(tw: CodeTable, cn: CodeTable, character: string)
    requires character !in tw
    ensures ToTelegraph(tw, cn, character, Both) == ToTelegraph(tw, cn, character, CN)
  {
  }

  /** `Both` finds nothing exactly when neither table has the character. */
  lemma BothNoneIffInNeither(tw: CodeTable, cn: CodeTable, character: string)
    ensures ToTelegraph(tw, cn, character, Both) == None <==> character !in tw && character !in cn
  {
  }

  /** Any code `Both` returns is the character's code in one of the tables. */
  lemma BothCodeFromATable(tw: CodeTable, cn: CodeTable, character: string, n: nat)
    requires ToTelegraph(tw, cn, character, Both) == Some(n)
    ensures (character in tw && n == tw[character]) || (character in cn && n == cn[character])
  {
  }

  /** Whatever `TW` finds, `Both` finds too, with the same code. */
  lemma BothExtendsTraditional(tw: CodeTable, cn: CodeTable, character: string)
    ensures ToTelegraph(tw, cn, character, TW).Some? ==>
              ToTelegraph(tw, cn, character, Both) == ToTelegraph(tw, cn, character, TW)
  {
  }

  /** `Both` is a lookup in the merge of the two tables in which the
      Traditional entries override the Simplified ones. */
  lemma BothIsMergedLookup(tw: CodeTable, cn: CodeTable, character: string)
    ensures ToTelegraph(tw, cn, character, Both) == Get(cn + tw, character)
  {
  }

  /** With single-character keys, an empty or multi-character input finds
      nothing under any selector, whether or not its parts are keys. */
  lemma OnlySingleCharacters(tw: CodeTable, cn: CodeTable, character: string, table: Table)
    requires SingleCharKeys(tw) && SingleCharKeys(cn)
    requires |character| != 1
    ensures ToTelegraph(tw, cn, character, table) == None
  {
  }

  /** Over tables built from entry lists, `TW` returns `n` exactly when the
      Traditional list has the entry (character, n); likewise `CN`. */
  lemma LookupMatchesEntries(twEntries: seq<CodeEntry>, cnEntries: seq<CodeEntry>, character: string, n: nat)
    requires BuildTable(twEntries).Some? && BuildTable(cnEntries).Some?
    ensures ToTelegraph(BuildTable(twEntries).value, BuildTable(cnEntries).value, character, TW) == Some(n) <==>
              CodeEntry(character, n) in twEntries
    ensures ToTelegraph(BuildTable(twEntries).value, BuildTable(cnEntries).value, character, CN) == Some(n) <==>
              CodeEntry(character, n) in cnEntries
  {
    BuildTableEntry(twEntries, character, n);
    BuildTableEntry(cnEntries, character, n);
  }

  // The scenarios of the crate's unit tests (lib.rs:27-55). The table
  // contents are not part of this model, so each entry a test relies on is
  // a hypothesis.

  /** "這" under `TW` is 6638 when the Traditional table says so. */
  lemma ScenarioTraditionalCharacter(tw: CodeTable, cn: CodeTable)
    requires "這" in tw && tw["這"] == 6638
    ensures ToTelegraph(tw, cn, "這", TW) == Some(6638)
  {
  }

  /** "这" under `CN` is 6638 when the Simplified table says so. */
  lemma ScenarioSimplifiedCharacter(tw: CodeTable, cn: CodeTable)
    requires "这" in cn && cn["这"] == 6638
    ensures ToTelegraph(tw, cn, "这", CN) == Some(6638)
  {
  }

  /** "一" under `Both` is 1 when the Traditional table says so. */
  lemma ScenarioCharacterInBoth(tw: CodeTable, cn: CodeTable)
    requires "一" in tw && tw["一"] == 1
    ensures ToTelegraph(tw, cn, "一", Both) == Some(1)
  {
  }

  /** "𠜎", one scalar value outside the Basic Multilingual Plane, finds
      nothing under `Both` when neither table lists it. */
  lemma ScenarioUnknownCharacter(tw: CodeTable, cn: CodeTable)
    requires "𠜎" !in tw && "𠜎" !in cn
    ensures |"𠜎"| == 1
    ensures ToTelegraph(tw, cn, "𠜎", Both) == None
  {
  }

  /** "這是" finds nothing under `Both`, even when both of its characters
      are keys, because it is two characters long. */
  lemma ScenarioTwoCharacters(tw: CodeTable, cn: CodeTable)
    requires SingleCharKeys(tw) && SingleCharKeys(cn)
    requires "這" in tw && "是" in tw
    ensures ToTelegraph(tw, cn, "這是", Both) == None
  {
    OnlySingleCharacters(tw, cn, "這是", Both);
  }
}
