/** `generateShortCode` of nextext/src/app/api/register/route.ts: six symbols
    drawn from a 36-symbol alphabet. The six random draws
    (`Math.floor(Math.random() * 36)`) are inputs. */
module ShortCode {

  const Characters: string := "ABCDEFGHIJKLMNOPQRSTUVWXYZ0123456789"
  const CodeLength: nat := 6

  /** A short-code symbol: an upper-case letter or a decimal digit. */
  predicate IsCodeChar(c: char)
  {
    ('A' <= c <= 'Z') || ('0' <= c <= '9')
  }

  /** Six draws, each a valid position in `Characters`, as the random source
      always produces. */
  predicate ValidPicks(picks: seq<nat>)
  {
    |picks| == CodeLength && forall k | 0 <= k < |picks| :: picks[k] < |Characters|
  }

  /** The symbol at position `k` of `Characters`: the letters in order, then
      the digits in order. */
  function SymbolAt(k: nat): char
    requires k < 36
  {
    if k < 26 then 'A' + k as char else '0' + (k - 26) as char
  }

  lemma CharactersLayout()
    ensures |Characters| == 36
    ensures forall k | 0 <= k < |Characters| :: Characters[k] == SymbolAt(k)
  {
    forall k | 0 <= k < |Characters|
      ensures Characters[k] == SymbolAt(k)
    {
      if k < 26 {
        assert Characters[k] == 'A' + k as char;
      } else {
        assert Characters[k] == '0' + (k - 26) as char;
      }
    }
  }

  /** The position of a code symbol in `Characters`, the only one holding it. */
  function IndexOf(c: char): (k: nat)
    requires IsCodeChar(c)
    ensures k < |Characters| && Characters[k] == c
    ensures forall j | 0 <= j < |Characters| && Characters[j] == c :: j == k
  {
    CharactersLayout();
    if 'A' <= c <= 'Z' then (c - 'A') as nat else 26 + (c - '0') as nat
  }

  /** Every symbol of the alphabet is a code symbol, and no symbol occurs
      twice. */
  lemma CharactersAreCodeChars()
    ensures |Characters| == 36
    ensures forall k | 0 <= k < |Characters| :: IsCodeChar(Characters[k]) && IndexOf(Characters[k]) == k
  {
    CharactersLayout();
  }

  /** The code that six given draws produce. */
  function CodeFor(picks: seq<nat>): (code: string)
    requires ValidPicks(picks)
    ensures |code| == CodeLength && forall k | 0 <= k < |code| :: IsCodeChar(code[k])
  {
    CharactersAreCodeChars();
    seq(CodeLength, k requires 0 <= k < CodeLength => Characters[picks[k]])
  }

  /** The draws a code was produced from: the inverse of `CodeFor`. */
  function PicksOf(code: string): (picks: seq<nat>)
    requires forall k | 0 <= k < |code| :: IsCodeChar(code[k])
  {
    seq(|code|, k requires 0 <= k < |code| => IndexOf(code[k]))
  }

  /** A generated code has six symbols, all from A-Z0-9, and the draws can be
      read back from it. */
  lemma CodeForShape(picks: seq<nat>)
    requires ValidPicks(picks)
    ensures |CodeFor(picks)| == CodeLength
    ensures forall k | 0 <= k < CodeLength :: IsCodeChar(CodeFor(picks)[k])
    ensures PicksOf(CodeFor(picks)) == picks
  {
    CharactersAreCodeChars();
    var code := CodeFor(picks);
    assert forall k | 0 <= k < CodeLength :: code[k] == Characters[picks[k]];
  }

  /** Every six-symbol code over A-Z0-9 is produced by exactly the draws read
      back from it. */
  lemma CodeForPicksOf(code: string)
    requires |code| == CodeLength && forall k | 0 <= k < |code| :: IsCodeChar(code[k])
    ensures ValidPicks(PicksOf(code)) && CodeFor(PicksOf(code)) == code
  {
  }

  /** Distinct draws give distinct codes. */
  lemma CodeForInjective(p: seq<nat>, q: seq<nat>)
    requires ValidPicks(p) && ValidPicks(q) && CodeFor(p) == CodeFor(q)
    ensures p == q
  {
    CodeForShape(p);
    CodeForShape(q);
  }

  /** The loop of `generateShortCode`: append one drawn symbol per round. */
  method GenerateShortCode(picks: seq<nat>) returns (result: string)
    requires ValidPicks(picks)
    ensures |result| == CodeLength
    ensures forall k | 0 <= k < CodeLength :: IsCodeChar(result[k]) && result[k] == Characters[picks[k]]
    ensures result == CodeFor(picks)
  {
    CharactersAreCodeChars();
    result := "";
    for i := 0 to CodeLength
      invariant |result| == i
      invariant forall k | 0 <= k < i :: result[k] == Characters[picks[k]]
    {
      result := result + [Characters[picks[i]]];
    }
  }
}
