/**
 * The voice-command parser of the main activity: the destination named in a
 * spoken command, taken from the text after the first navigation phrase that
 * leaves something to go to, or the whole command when no phrase does.
 */
module HelloArActivity {
  import opened Text
  import opened Options

  /** The navigation phrases, in the order they are tried. */
  const PATTERNS: seq<string> := ["take me to", "navigate to", "go to", "directions to", "find"]

  /** Phrase `p` occurs in `it` and leaves a non-blank destination after its first occurrence. */
  predicate Yields(it: string, p: string) {
    Contains(it, p) && Trim(SubstringAfter(it, p)) != []
  }

  /** The index of the first phrase at or after `from` that satisfies `found`, or
      `|patterns|` when none does. */
  function FirstMatch(found: string -> bool, patterns: seq<string>, from: nat): (k: nat)
    requires from <= |patterns|
    ensures from <= k <= |patterns|
    ensures k < |patterns| ==> found(patterns[k])
    ensures forall j | from <= j < k :: !found(patterns[j])
    decreases |patterns| - from
  {
    if from == |patterns| then from
    else if found(patterns[from]) then from
    else FirstMatch(found, patterns, from + 1)
  }

  /** A destination: non-empty, trimmed, lower-case, and made of characters of `source`. */
  predicate IsDestination(d: string, source: string) {
    && d != [] && !IsWhitespace(d[0]) && !IsWhitespace(d[|d| - 1])
    && IsLowercase(d)
    && forall c | c in d :: c in source
  }

  /** `extractDestinationFromCommand`: `None` exactly for a missing or blank command; otherwise
      a non-empty, trimmed, lower-case piece of the lower-cased command. */
  function ExtractDestinationFromCommand(command: Option<string>): (r: Option<string>)
    ensures r.None? <==> command.None? || IsBlank(command.value)
    ensures r.Some? ==> IsDestination(r.value, ToLower(command.value))
  {
    match command
    case None => None
    case Some(text) =>
      var it := ToLower(text);
      var destination := DestinationIn(it);
      assert destination.None? <==> IsBlank(text) by {
        LowerKeepsBlank(text);
      }
      destination
  }

  /** The body of the `let` block on the lower-cased command `it`: the trimmed text after the
      first phrase that yields, else the trimmed command unless it is blank. */
  function DestinationIn(it: string): (r: Option<string>)
    requires IsLowercase(it)
    ensures r.None? <==> IsBlank(it)
    ensures r.Some? ==> IsDestination(r.value, it)
  {
    var k := FirstMatch(p => Yields(it, p), PATTERNS, 0);
    if k < |PATTERNS| then
      var destination := Trim(SubstringAfter(it, PATTERNS[k]));
      SuffixOfLowercase(it, PATTERNS[k]);
      TrimKeepsLowercase(SubstringAfter(it, PATTERNS[k]));
      Some(destination)
    else if !IsBlank(it) then
      TrimKeepsLowercase(it);
      Some(Trim(it))
    else
      None
  }

  /** Lower-casing neither creates nor removes whitespace. */
  lemma LowerKeepsBlank(s: string)
    ensures IsBlank(ToLower(s)) <==> IsBlank(s)
  {
    var t := ToLower(s);
    forall i | 0 <= i < |s| ensures IsWhitespace(t[i]) <==> IsWhitespace(s[i]) {
      assert t[i] == LowerChar(s[i]);
    }
  }

  /** The text after a phrase in a lower-case string is lower-case, and nothing in it is new. */
  lemma SuffixOfLowercase(it: string, p: string)
    requires IsLowercase(it)
    ensures IsLowercase(SubstringAfter(it, p))
    ensures forall c | c in SubstringAfter(it, p) :: c in it
  {
  }

  /** Trimming a lower-case string leaves it lower-case. */
  lemma TrimKeepsLowercase(s: string)
    requires IsLowercase(s)
    ensures IsLowercase(Trim(s))
  {
    var r := Trim(s);
    forall i | 0 <= i < |r| ensures !IsUpper(r[i]) {
      assert r[i] in s;
    }
  }

  /** A phrase that satisfies `found`, with none between `from` and it doing so, is the
      one the search picks. */
  lemma {:induction false} FirstMatchIsFirst(found: string -> bool, patterns: seq<string>, from: nat, k: nat)
    requires from <= k < |patterns| && found(patterns[k])
    requires forall j | from <= j < k :: !found(patterns[j])
    ensures FirstMatch(found, patterns, from) == k
    decreases k - from
  {
    if from < k {
      assert !found(patterns[from]);
      FirstMatchIsFirst(found, patterns, from + 1, k);
    }
  }

  /** The first phrase that yields decides the destination: the trimmed lower-case text
      after its first occurrence. */
  lemma FirstYieldingPhraseWins(text: string, k: nat)
    requires k < |PATTERNS| && Yields(ToLower(text), PATTERNS[k])
    requires forall j | 0 <= j < k :: !Yields(ToLower(text), PATTERNS[j])
    ensures ExtractDestinationFromCommand(Some(text))
      == Some(Trim(SubstringAfter(ToLower(text), PATTERNS[k])))
  {
    var it := ToLower(text);
    FirstMatchIsFirst(p => Yields(it, p), PATTERNS, 0, k);
  }

  /** When no phrase yields, a non-blank command is its own destination, lower-cased and trimmed. */
  lemma WholeCommandWhenNoPhraseYields(text: string)
    requires forall j | 0 <= j < |PATTERNS| :: !Yields(ToLower(text), PATTERNS[j])
    requires !IsBlank(text)
    ensures ExtractDestinationFromCommand(Some(text)) == Some(Trim(ToLower(text)))
  {
    LowerKeepsBlank(text);
  }
}
