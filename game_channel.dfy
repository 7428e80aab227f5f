/**
 * `/create_game`: turns a game-idea forum thread (or the current channel) into
 * a game. The handler checks where and by whom it is run, derives a PascalCase
 * repository name, refuses a name GitHub already has (case-insensitively),
 * records the game, and locks and archives the thread by editing it with
 * channel flag bit 2 set.
 *
 * GitHub and Discord are outside the model: the organisation's repository
 * names, the name of the repository GitHub creates and the id of the channel
 * Discord creates are parameters.
 */
module GameChannel {
  import opened Wrappers
  import opened PyStrings
  import opened Databases

  /** FORUM_ID: the forum whose threads may become games. */
  const ForumId: int := 1411735698951639193

  // ---------------------------------------------------------------------------
  // sanitize_repo_name
  // ---------------------------------------------------------------------------

  /** Length of the run of `[a-z0-9]` characters at the start of `s`. */
  function LowerRun(s: string): (n: nat)
    ensures n <= |s|
    ensures forall k :: 0 <= k < n ==> IsLower(s[k]) || IsDigit(s[k])
    ensures n < |s| ==> !IsLower(s[n]) && !IsDigit(s[n])
    decreases |s|
  {
    if |s| > 0 && (IsLower(s[0]) || IsDigit(s[0])) then 1 + LowerRun(s[1..]) else 0
  }

  /**
   * `re.fullmatch(r"(?:[A-Z][a-z0-9]*)+", s)`: one or more groups, each an
   * upper-case letter and then the longest run of lower-case letters and
   * digits (no shorter run can be followed by another group).
   */
  predicate MatchesPascalGroups(s: string)
    decreases |s|
  {
    |s| > 0 && IsUpper(s[0]) &&
    var n := 1 + LowerRun(s[1..]);
    n == |s| || MatchesPascalGroups(s[n..])
  }

  /** Every character of a text the regular expression accepts is an ASCII letter or digit. */
  lemma {:induction false} PascalGroupsAreAlnum(s: string)
    requires MatchesPascalGroups(s)
    ensures forall k :: 0 <= k < |s| ==> IsAlnum(s[k])
    decreases |s|
  {
    var n := 1 + LowerRun(s[1..]);
    assert forall k :: 1 <= k < n ==> s[k] == s[1..][k - 1];
    if n < |s| {
      PascalGroupsAreAlnum(s[n..]);
      forall k | n <= k < |s| ensures IsAlnum(s[k]) {
        assert s[k] == s[n..][k - n];
      }
    }
  }

  /** An ASCII-alphanumeric text that starts with a capital is accepted, group by group. */
  lemma {:induction false} AlnumArePascalGroups(s: string)
    requires |s| > 0 && IsUpper(s[0]) && forall k :: 0 <= k < |s| ==> IsAlnum(s[k])
    ensures MatchesPascalGroups(s)
    decreases |s|
  {
    var n := 1 + LowerRun(s[1..]);
    if n < |s| {
      assert s[n] == s[1..][n - 1];
      assert IsUpper(s[n..][0]);
      assert forall k :: 0 <= k < |s[n..]| ==> s[n..][k] == s[n + k];
      AlnumArePascalGroups(s[n..]);
    }
  }

  /** The regular expression accepts exactly the ASCII-alphanumeric texts that start with a capital. */
  lemma PascalGroupsIff(s: string)
    ensures MatchesPascalGroups(s) <==> |s| > 0 && IsUpper(s[0]) && forall k :: 0 <= k < |s| ==> IsAlnum(s[k])
  {
    if MatchesPascalGroups(s) {
      PascalGroupsAreAlnum(s);
    }
    if |s| > 0 && IsUpper(s[0]) && forall k :: 0 <= k < |s| ==> IsAlnum(s[k]) {
      AlnumArePascalGroups(s);
    }
  }

  /** `s.replace(a, b)` for single characters. */
  function Replace(s: string, a: char, b: char): (r: string)
    ensures |r| == |s|
    ensures forall k :: 0 <= k < |s| ==> r[k] == if s[k] == a then b else s[k]
  {
    seq(|s|, k requires 0 <= k < |s| => if s[k] == a then b else s[k])
  }

  /** `re.sub(r"[^a-zA-Z0-9 ]", "", s)`: only ASCII letters, digits and spaces are kept. */
  function KeepAlnumSpace(s: string): string
    decreases |s|
  {
    if |s| == 0 then ""
    else (if IsAlnum(s[0]) || s[0] == ' ' then [s[0]] else "") + KeepAlnumSpace(s[1..])
  }

  /** The ASCII letters and digits of `s`, in order. */
  function AlnumOf(s: string): (r: string)
    ensures forall k :: 0 <= k < |r| ==> IsAlnum(r[k])
    decreases |s|
  {
    if |s| == 0 then ""
    else (if IsAlnum(s[0]) then [s[0]] else "") + AlnumOf(s[1..])
  }

  /** `s` with its whitespace removed. */
  function RemoveSpaces(s: string): string
    decreases |s|
  {
    if |s| == 0 then ""
    else (if IsSpace(s[0]) then "" else [s[0]]) + RemoveSpaces(s[1..])
  }

  /** Length of the word at the start of `s`: the characters before the first whitespace. */
  function WordLength(s: string): (n: nat)
    ensures n <= |s|
    ensures forall k :: 0 <= k < n ==> !IsSpace(s[k])
    ensures n < |s| ==> IsSpace(s[n])
    decreases |s|
  {
    if |s| > 0 && !IsSpace(s[0]) then 1 + WordLength(s[1..]) else 0
  }

  /** Python's `s.split()`: the maximal runs of non-whitespace characters, each nonempty. */
  function Words(s: string): (ws: seq<string>)
    ensures forall k :: 0 <= k < |ws| ==> |ws[k]| > 0
    decreases |s|
  {
    if |s| == 0 then []
    else if IsSpace(s[0]) then Words(s[1..])
    else
      var n := WordLength(s);
      [s[..n]] + Words(s[n..])
  }

  /** `"".join(parts)`. */
  function Concat(parts: seq<string>): string
    decreases |parts|
  {
    if |parts| == 0 then "" else parts[0] + Concat(parts[1..])
  }

  /** `"".join(word.capitalize() for word in words)`. */
  function JoinCapitalized(words: seq<string>): string
    decreases |words|
  {
    if |words| == 0 then "" else Capitalize(words[0]) + JoinCapitalized(words[1..])
  }

  /** The text the non-PascalCase branch splits: `_` and `-` become spaces, other symbols go. */
  function CleanedName(name: string): string {
    KeepAlnumSpace(Replace(Replace(name, '_', ' '), '-', ' '))
  }

  /** `sanitize_repo_name(name)`. */
  function SanitizeRepoName(name: string): string {
    if MatchesPascalGroups(name) then name
    else JoinCapitalized(Words(CleanedName(name)))
  }

  // --- What sanitising does ----------------------------------------------------

  lemma {:induction false} RemoveSpacesAppend(a: string, b: string)
    ensures RemoveSpaces(a + b) == RemoveSpaces(a) + RemoveSpaces(b)
    decreases |a|
  {
    if |a| > 0 {
      assert (a + b)[1..] == a[1..] + b;
      RemoveSpacesAppend(a[1..], b);
    } else {
      assert a + b == b;
    }
  }

  lemma {:induction false} RemoveSpacesOfWord(w: string)
    requires forall k :: 0 <= k < |w| ==> !IsSpace(w[k])
    ensures RemoveSpaces(w) == w
    decreases |w|
  {
    if |w| > 0 {
      RemoveSpacesOfWord(w[1..]);
      assert [w[0]] + w[1..] == w;
    }
  }

  /** Joining the words of `s` gives `s` without its whitespace. */
  lemma {:induction false} ConcatWords(s: string)
    ensures Concat(Words(s)) == RemoveSpaces(s)
    decreases |s|
  {
    if |s| > 0 {
      if IsSpace(s[0]) {
        ConcatWords(s[1..]);
      } else {
        var n := WordLength(s);
        ConcatWords(s[n..]);
        assert s == s[..n] + s[n..];
        RemoveSpacesAppend(s[..n], s[n..]);
        RemoveSpacesOfWord(s[..n]);
        assert ([s[..n]] + Words(s[n..]))[1..] == Words(s[n..]);
      }
    }
  }

  /** Keeping letters, digits and spaces, then dropping the whitespace, keeps the letters and digits. */
  lemma {:induction false} CleanKeepsAlnum(s: string)
    ensures RemoveSpaces(KeepAlnumSpace(s)) == AlnumOf(s)
    decreases |s|
  {
    if |s| > 0 {
      CleanKeepsAlnum(s[1..]);
      var head := if IsAlnum(s[0]) || s[0] == ' ' then [s[0]] else "";
      RemoveSpacesAppend(head, KeepAlnumSpace(s[1..]));
      if |head| == 1 {
        assert head[1..] == "";
      }
    }
  }

  /** Replacing a character that is not a letter or digit leaves the letters and digits alone. */
  lemma {:induction false} ReplaceKeepsAlnum(s: string, a: char, b: char)
    requires !IsAlnum(a) && !IsAlnum(b)
    ensures AlnumOf(Replace(s, a, b)) == AlnumOf(s)
    decreases |s|
  {
    if |s| > 0 {
      ReplaceKeepsAlnum(s[1..], a, b);
      assert Replace(s, a, b)[1..] == Replace(s[1..], a, b);
    }
  }

  lemma LowerAppend(a: string, b: string)
    ensures Lower(a + b) == Lower(a) + Lower(b)
  {
  }

  /** Capitalising each word changes only letter case. */
  lemma {:induction false} LowerJoinCapitalized(words: seq<string>)
    ensures Lower(JoinCapitalized(words)) == Lower(Concat(words))
    decreases |words|
  {
    if |words| > 0 {
      LowerJoinCapitalized(words[1..]);
      LowerAppend(Capitalize(words[0]), JoinCapitalized(words[1..]));
      LowerAppend(words[0], Concat(words[1..]));
      assert Lower(Capitalize(words[0])) == Lower(words[0]);
    }
  }

  /** A character whose lower case is a letter or digit is one itself. */
  lemma AlnumOfLower(c: char)
    requires IsAlnum(ToLower(c))
    ensures IsAlnum(c)
  {
  }

  /**
   * Outside the PascalCase shortcut, the result consists of exactly the input's
   * ASCII letters and digits, in order, with only their case changed; in
   * particular it holds nothing else.
   */
  lemma SanitizeKeepsLettersAndDigits(name: string)
    requires !MatchesPascalGroups(name)
    ensures Lower(SanitizeRepoName(name)) == Lower(AlnumOf(name))
    ensures forall k :: 0 <= k < |SanitizeRepoName(name)| ==> IsAlnum(SanitizeRepoName(name)[k])
  {
    var replaced := Replace(Replace(name, '_', ' '), '-', ' ');
    var words := Words(CleanedName(name));
    LowerJoinCapitalized(words);
    ConcatWords(CleanedName(name));
    CleanKeepsAlnum(replaced);
    ReplaceKeepsAlnum(Replace(name, '_', ' '), '-', ' ');
    ReplaceKeepsAlnum(name, '_', ' ');
    var r := SanitizeRepoName(name);
    forall k | 0 <= k < |r| ensures IsAlnum(r[k]) {
      assert Lower(r)[k] == ToLower(r[k]);
      AlnumOfLower(r[k]);
    }
  }

  /** A text with no ASCII letter or digit has none to keep. */
  lemma {:induction false} AlnumOfNone(s: string)
    requires forall k :: 0 <= k < |s| ==> !IsAlnum(s[k])
    ensures AlnumOf(s) == ""
    decreases |s|
  {
    if |s| > 0 {
      AlnumOfNone(s[1..]);
    }
  }

  /** A name with no ASCII letter or digit sanitises to the empty name. */
  lemma SanitizeEmptyWithoutAlnum(name: string)
    requires forall k :: 0 <= k < |name| ==> !IsAlnum(name[k])
    ensures SanitizeRepoName(name) == ""
  {
    PascalGroupsIff(name);
    assert |name| > 0 ==> !IsAlnum(name[0]);
    SanitizeKeepsLettersAndDigits(name);
    AlnumOfNone(name);
    assert |Lower(SanitizeRepoName(name))| == 0;
  }

  /** The first character of the joined words is the first word's first character, upper-cased. */
  lemma JoinCapitalizedHead(words: seq<string>)
    requires |words| > 0 && |words[0]| > 0
    ensures |JoinCapitalized(words)| > 0 && JoinCapitalized(words)[0] == ToUpper(words[0][0])
  {
  }

  /** A name that is already a result is left alone, unless it starts with a digit. */
  lemma SanitizeIdempotent(name: string)
    requires |SanitizeRepoName(name)| == 0 || !IsDigit(SanitizeRepoName(name)[0])
    ensures SanitizeRepoName(SanitizeRepoName(name)) == SanitizeRepoName(name)
  {
    var r := SanitizeRepoName(name);
    if !MatchesPascalGroups(name) {
      SanitizeKeepsLettersAndDigits(name);
      if |r| > 0 {
        var words := Words(CleanedName(name));
        JoinCapitalizedHead(words);
        PascalGroupsIff(r);
      } else {
        assert CleanedName(r) == "";
      }
    }
  }

  /** A word without whitespace, followed by nothing or by whitespace, is the whole first word. */
  lemma {:induction false} WordLengthOfWord(a: string, rest: string)
    requires forall k :: 0 <= k < |a| ==> !IsSpace(a[k])
    requires |rest| > 0 ==> IsSpace(rest[0])
    ensures WordLength(a + rest) == |a|
    decreases |a|
  {
    if |a| > 0 {
      assert (a + rest)[1..] == a[1..] + rest;
      WordLengthOfWord(a[1..], rest);
    } else {
      assert a + rest == rest;
    }
  }

  /** A nonempty text without whitespace splits into itself alone. */
  lemma WordsOfWord(a: string)
    requires |a| > 0 && forall k :: 0 <= k < |a| ==> !IsSpace(a[k])
    ensures Words(a) == [a]
  {
    WordLengthOfWord(a, "");
    assert a + "" == a;
  }

  /** Two such words with one space between them split into the two words. */
  lemma WordsOfTwo(a: string, b: string)
    requires |a| > 0 && forall k :: 0 <= k < |a| ==> !IsSpace(a[k])
    requires |b| > 0 && forall k :: 0 <= k < |b| ==> !IsSpace(b[k])
    ensures Words(a + " " + b) == [a, b]
  {
    var s := a + " " + b;
    assert s == a + (" " + b);
    WordLengthOfWord(a, " " + b);
    assert s[..|a|] == a && s[|a|..] == " " + b;
    assert (" " + b)[1..] == b;
    WordsOfWord(b);
  }

  /** ASCII letters, digits and spaces survive the cleaning regular expression. */
  lemma {:induction false} KeepAlnumSpaceKeepsAll(s: string)
    requires forall k :: 0 <= k < |s| ==> IsAlnum(s[k]) || s[k] == ' '
    ensures KeepAlnumSpace(s) == s
    decreases |s|
  {
    if |s| > 0 {
      KeepAlnumSpaceKeepsAll(s[1..]);
      assert s == [s[0]] + s[1..];
    }
  }

  /** A name of ASCII letters, digits and spaces is already clean. */
  lemma CleanedNameKeepsAll(s: string)
    requires forall k :: 0 <= k < |s| ==> IsAlnum(s[k]) || s[k] == ' '
    ensures CleanedName(s) == s
  {
    assert Replace(s, '_', ' ') == s;
    assert Replace(s, '-', ' ') == s;
    KeepAlnumSpaceKeepsAll(s);
  }

  /** A digit-led name misses the PascalCase shortcut. */
  lemma DigitLedNotPascal(s: string)
    requires |s| > 0 && IsDigit(s[0])
    ensures !MatchesPascalGroups(s)
  {
  }

  /** Joining one or two capitalised words. */
  lemma JoinCapitalizedTwo(a: string, b: string)
    ensures JoinCapitalized([a]) == Capitalize(a)
    ensures JoinCapitalized([a, b]) == Capitalize(a) + Capitalize(b)
  {
    assert [a, b][1..] == [b];
    assert JoinCapitalized([b]) == Capitalize(b) + JoinCapitalized([]);
    assert JoinCapitalized([a]) == Capitalize(a) + JoinCapitalized([]);
  }

  /** `capitalize()` keeps ASCII letters and digits ASCII letters and digits. */
  lemma CapitalizeKeepsAlnum(w: string)
    requires forall k :: 0 <= k < |w| ==> IsAlnum(w[k])
    ensures forall k :: 0 <= k < |w| ==> IsAlnum(Capitalize(w)[k])
  {
  }

  /** A digit-led ASCII-alphanumeric name misses the PascalCase shortcut and comes back `capitalize()`d. */
  lemma SanitizeDigitLed(r: string)
    requires |r| > 0 && IsDigit(r[0]) && forall k :: 0 <= k < |r| ==> IsAlnum(r[k])
    ensures SanitizeRepoName(r) == Capitalize(r)
  {
    DigitLedNotPascal(r);
    CleanedNameKeepsAll(r);
    WordsOfWord(r);
    JoinCapitalizedTwo(r, r);
  }

  /** Two ASCII-alphanumeric words with a space between hold only letters, digits and that space. */
  lemma SpacedWordsChars(a: string, b: string)
    requires forall k :: 0 <= k < |a| ==> IsAlnum(a[k])
    requires forall k :: 0 <= k < |b| ==> IsAlnum(b[k])
    ensures forall k :: 0 <= k < |a + " " + b| ==> IsAlnum((a + " " + b)[k]) || (a + " " + b)[k] == ' '
  {
    var name := a + " " + b;
    forall k | 0 <= k < |name|
      ensures IsAlnum(name[k]) || name[k] == ' '
    {
      if k > |a| {
        assert name[k] == b[k - |a| - 1];
      }
    }
  }

  /** A digit-led word, a space and another word sanitise to the two words `capitalize()`d and joined. */
  lemma SanitizeTwoWords(a: string, b: string)
    requires |a| > 0 && IsDigit(a[0]) && forall k :: 0 <= k < |a| ==> IsAlnum(a[k])
    requires |b| > 0 && forall k :: 0 <= k < |b| ==> IsAlnum(b[k])
    ensures SanitizeRepoName(a + " " + b) == Capitalize(a) + Capitalize(b)
  {
    var name := a + " " + b;
    assert name[0] == a[0];
    DigitLedNotPascal(name);
    SpacedWordsChars(a, b);
    CleanedNameKeepsAll(name);
    WordsOfTwo(a, b);
    JoinCapitalizedTwo(a, b);
  }

  /**
   * Sanitising is not idempotent on digit-led results: a digit-led word, a
   * space and a letter-led word give a name with an inner capital, and the
   * second pass lower-cases it.
   */
  lemma SanitizeNotIdempotent(a: string, b: string)
    requires |a| > 0 && IsDigit(a[0]) && forall k :: 0 <= k < |a| ==> IsAlnum(a[k])
    requires |b| > 0 && (IsUpper(b[0]) || IsLower(b[0])) && forall k :: 0 <= k < |b| ==> IsAlnum(b[k])
    ensures SanitizeRepoName(a + " " + b) == Capitalize(a) + Capitalize(b)
    ensures SanitizeRepoName(SanitizeRepoName(a + " " + b)) != SanitizeRepoName(a + " " + b)
  {
    SanitizeTwoWords(a, b);
    var ca, cb := Capitalize(a), Capitalize(b);
    CapitalizeKeepsAlnum(a);
    CapitalizeKeepsAlnum(b);
    AppendAlnum(ca, cb);
    var r := ca + cb;
    assert r[0] == ca[0] == a[0];
    SanitizeDigitLed(r);
    assert r[|ca|] == cb[0];
    CapitalizeLowersInnerCapital(r, |ca|);
  }

  /** Joining two ASCII-alphanumeric texts gives one. */
  lemma AppendAlnum(x: string, y: string)
    requires forall k :: 0 <= k < |x| ==> IsAlnum(x[k])
    requires forall k :: 0 <= k < |y| ==> IsAlnum(y[k])
    ensures forall k :: 0 <= k < |x + y| ==> IsAlnum((x + y)[k])
  {
    forall k | 0 <= k < |x + y|
      ensures IsAlnum((x + y)[k])
    {
      if k >= |x| {
        assert (x + y)[k] == y[k - |x|];
      }
    }
  }

  /** `capitalize()` changes a text with a capital after its first character. */
  lemma CapitalizeLowersInnerCapital(r: string, i: nat)
    requires 0 < i < |r| && IsUpper(r[i])
    ensures Capitalize(r) != r
  {
    assert Capitalize(r)[i] == ToLower(r[i]);
  }

  /** "2bar Baz" sanitises to "2barBaz", which sanitises again to "2barbaz". */
  lemma TwoBarBazNotStable()
    ensures SanitizeRepoName(SanitizeRepoName("2bar Baz")) != SanitizeRepoName("2bar Baz")
  {
    assert "2bar" + " " + "Baz" == "2bar Baz";
    SanitizeNotIdempotent("2bar", "Baz");
  }

  /** The cleaning step already turns the separator into a space. */
  lemma CleanedAbsorbsSeparator(name: string, c: char)
    requires c == '_' || c == '-'
    ensures CleanedName(Replace(name, c, ' ')) == CleanedName(name)
  {
    var r := Replace(name, c, ' ');
    assert Replace(Replace(r, '_', ' '), '-', ' ') == Replace(Replace(name, '_', ' '), '-', ' ');
  }

  /** A PascalCase name has no separator to replace. */
  lemma PascalHasNoSeparator(name: string, c: char)
    requires c == '_' || c == '-'
    requires MatchesPascalGroups(name)
    ensures Replace(name, c, ' ') == name
  {
    PascalGroupsIff(name);
  }

  /** Nor has a name that replacing the separator turns into PascalCase: the replacement was a no-op. */
  lemma PascalAfterReplace(name: string, c: char)
    requires c == '_' || c == '-'
    requires MatchesPascalGroups(Replace(name, c, ' '))
    ensures Replace(name, c, ' ') == name
  {
    var r := Replace(name, c, ' ');
    PascalGroupsIff(r);
    forall k | 0 <= k < |name| ensures r[k] == name[k] {
      assert IsAlnum(r[k]);
    }
  }

  /** Turning one separator into spaces first changes neither branch of `sanitize_repo_name`. */
  lemma SeparatorActsAsSpace(name: string, c: char)
    requires c == '_' || c == '-'
    ensures SanitizeRepoName(Replace(name, c, ' ')) == SanitizeRepoName(name)
  {
    CleanedAbsorbsSeparator(name, c);
    if MatchesPascalGroups(name) {
      PascalHasNoSeparator(name, c);
    }
    if MatchesPascalGroups(Replace(name, c, ' ')) {
      PascalAfterReplace(name, c);
    }
  }

  /** Underscores and hyphens separate words exactly as spaces do. */
  lemma SeparatorsActAsSpaces(name: string)
    ensures SanitizeRepoName(Replace(name, '_', ' ')) == SanitizeRepoName(name)
    ensures SanitizeRepoName(Replace(name, '-', ' ')) == SanitizeRepoName(name)
  {
    SeparatorActsAsSpace(name, '_');
    SeparatorActsAsSpace(name, '-');
  }

  // ---------------------------------------------------------------------------
  // create_game
  // ---------------------------------------------------------------------------

  datatype Member = Member(name: string, displayName: string, canManageGuild: bool)

  /** The forum thread `/create_game` runs in, when it runs in one. */
  datatype ThreadInfo = ThreadInfo(parentId: int, locked: bool, name: string, flags: nat, owner: Member)

  datatype Gate =
    | WrongForum         // "This thread is not part of the correct forum."
    | AlreadyLocked      // "This thread is already locked."
    | ApprovalRequested  // the guild owner is pinged to approve
    | NoPermission       // "You don't have permission to run this command here."
    | Proceed

  /** The checks before anything is created: forum, lock and permission in a thread, permission elsewhere. */
  function CreateGameGate(thread: Option<ThreadInfo>, author: Member, testEnvironment: bool): (g: Gate)
    ensures g == Proceed <==>
      author.canManageGuild && (thread.Some? ==> !thread.value.locked && (thread.value.parentId == ForumId || testEnvironment))
    ensures g == WrongForum <==> thread.Some? && !testEnvironment && thread.value.parentId != ForumId
    ensures g == AlreadyLocked <==>
      thread.Some? && (testEnvironment || thread.value.parentId == ForumId) && thread.value.locked
    ensures g == ApprovalRequested <==>
      thread.Some? && (testEnvironment || thread.value.parentId == ForumId) && !thread.value.locked && !author.canManageGuild
    ensures g == NoPermission <==> thread.None? && !author.canManageGuild
  {
    if thread.Some? then
      if ForumId > -1 && thread.value.parentId != ForumId && !testEnvironment then WrongForum
      else if thread.value.locked then AlreadyLocked
      else if !author.canManageGuild then ApprovalRequested
      else Proceed
    else if !author.canManageGuild then NoPermission
    else Proceed
  }

  /** The loop over the organisation's repositories, left at the first case-insensitive match. */
  method FindExistingRepo(repoNames: seq<string>, sanitized: string) returns (existing: Option<nat>)
    ensures existing.None? <==> forall k :: 0 <= k < |repoNames| ==> Lower(repoNames[k]) != Lower(sanitized)
    ensures existing.Some? ==> existing.value < |repoNames| && Lower(repoNames[existing.value]) == Lower(sanitized)
    ensures existing.Some? ==> forall k :: 0 <= k < existing.value ==> Lower(repoNames[k]) != Lower(sanitized)
  {
    existing := None;
    var i := 0;
    while i < |repoNames|
      invariant 0 <= i <= |repoNames|
      invariant forall k :: 0 <= k < i ==> Lower(repoNames[k]) != Lower(sanitized)
    {
      if Lower(repoNames[i]) == Lower(sanitized) {
        existing := Some(i);
        break;
      }
      i := i + 1;
    }
  }

  // --- Locking the thread ----------------------------------------------------------

  /** Bit `k` of `n`. */
  function Bit(n: nat, k: nat): bool
    decreases k
  {
    if k == 0 then n % 2 == 1 else Bit(n / 2, k - 1)
  }

  /** `n | (1 << j)`. */
  function SetBit(n: nat, j: nat): nat
    decreases j
  {
    if j == 0 then (if n % 2 == 1 then n else n + 1)
    else 2 * SetBit(n / 2, j - 1) + n % 2
  }

  /** Setting bit `j` turns that bit on and leaves every other bit as it was. */
  lemma {:induction false} SetBitBits(n: nat, j: nat, k: nat)
    ensures Bit(SetBit(n, j), k) == (Bit(n, k) || k == j)
    decreases j
  {
    var m := SetBit(n, j);
    if j == 0 {
      if k > 0 {
        assert m / 2 == n / 2;
      }
    } else {
      assert m / 2 == SetBit(n / 2, j - 1) && m % 2 == n % 2;
      if k > 0 {
        SetBitBits(n / 2, j - 1, k - 1);
      }
    }
  }

  /** The edit `close_and_lock_and_archive` sends for the thread. */
  datatype LockEdit = LockEdit(name: string, archived: bool, locked: bool, flags: nat)

  /** The thread is renamed with a `[LOCKED] ` prefix, archived, locked, and keeps its flags plus bit 2. */
  function LockThread(thread: ThreadInfo): (e: LockEdit)
    ensures e.name == "[LOCKED] " + thread.name && e.archived && e.locked
    ensures forall k: nat :: Bit(e.flags, k) == (Bit(thread.flags, k) || k == 2)
  {
    forall k: nat ensures Bit(SetBit(thread.flags, 2), k) == (Bit(thread.flags, k) || k == 2) {
      SetBitBits(thread.flags, 2, k);
    }
    LockEdit("[LOCKED] " + thread.name, true, true, SetBit(thread.flags, 2))
  }

  // --- The handler ---------------------------------------------------------------

  datatype CreateReply =
    | Refused(gate: Gate)
    | RepoExists(repoName: string)      // "Repo <name> already exists: <url>"
    | CreatedHere                       // "Game created in DB"
    | CreatedFromThread(lock: LockEdit) // game channel created, thread locked and archived

  /**
   * `create_game`. `channelId` is the channel the command runs in;
   * `existingRepos` the organisation's repository names; `createdRepoName` the
   * name of the repository GitHub creates from the template; `newChannelId`
   * the channel Discord creates for a thread's game.
   */
  method CreateGame(db: Database, gameName: string, channelId: int, thread: Option<ThreadInfo>, author: Member,
                    testEnvironment: bool, existingRepos: seq<string>, createdRepoName: string, newChannelId: int)
    returns (reply: CreateReply)
    requires db.Valid()
    modifies db
    ensures db.Valid()
    ensures CreateGameGate(thread, author, testEnvironment) != Proceed ==>
      reply == Refused(CreateGameGate(thread, author, testEnvironment)) && db.Rows(Games) == old(db.Rows(Games))
    ensures reply.RepoExists? <==>
      CreateGameGate(thread, author, testEnvironment) == Proceed &&
      exists k :: 0 <= k < |existingRepos| && Lower(existingRepos[k]) == Lower(SanitizeRepoName(gameName))
    ensures reply.RepoExists? ==> reply.repoName == SanitizeRepoName(gameName) && db.Rows(Games) == old(db.Rows(Games))
    ensures (CreateGameGate(thread, author, testEnvironment) == Proceed &&
             forall k :: 0 <= k < |existingRepos| ==> Lower(existingRepos[k]) != Lower(SanitizeRepoName(gameName)))
            ==> if thread.None? then reply == CreatedHere else reply.CreatedFromThread?
    ensures reply == CreatedHere ==> (thread.None? &&
      db.Rows(Games) == old(db.Rows(Games)) + [Row(old(db.NextId(Games)), GameCols(gameName, "", channelId, author.name, author.displayName))])
    ensures reply.CreatedFromThread? ==> (thread.Some? && reply.lock == LockThread(thread.value) &&
      db.Rows(Games) == old(db.Rows(Games)) +
        [Row(old(db.NextId(Games)), GameCols(gameName, if testEnvironment then "" else createdRepoName, newChannelId,
                                            thread.value.owner.name, thread.value.owner.displayName))])
    ensures forall u :: u != Games ==> db.Rows(u) == old(db.Rows(u)) && db.NextId(u) == old(db.NextId(u))
  {
    var gate := CreateGameGate(thread, author, testEnvironment);
    if gate != Proceed {
      return Refused(gate);
    }
    var sanitized := SanitizeRepoName(gameName);
    var existing := FindExistingRepo(existingRepos, sanitized);
    if existing.Some? {
      return RepoExists(sanitized);
    }
    var repoName := "";
    if thread.Some? && !testEnvironment {
      repoName := createdRepoName;
    }
    if thread.None? {
      db.AddGame(gameName, repoName, channelId, author.name, author.displayName);
      return CreatedHere;
    }
    var owner := thread.value.owner;
    db.AddGame(gameName, repoName, newChannelId, owner.name, owner.displayName);
    reply := CreatedFromThread(LockThread(thread.value));
  }

  // ---------------------------------------------------------------------------
  // copy_messages
  // ---------------------------------------------------------------------------

  /** DISCORD's message length limit the copier cuts at. */
  const MessageLimit: nat := 2000

  datatype Message = Message(fromBot: bool, authorDisplayName: string, content: string, attachmentUrls: seq<string>)

  /** One `\n<url>` line per attachment. */
  function AttachmentLines(urls: seq<string>): string
    decreases |urls|
  {
    if |urls| == 0 then "" else AttachmentLines(urls[..|urls| - 1]) + "\n" + urls[|urls| - 1]
  }

  /** The text copied for one message: bold author name, the content, then the attachment URLs. */
  function CopyText(m: Message): string {
    "**" + m.authorDisplayName + ":** " + m.content + AttachmentLines(m.attachmentUrls)
  }

  /** `content[:2000]`. */
  function Cut(s: string): (r: string)
    ensures |r| <= MessageLimit && |r| <= |s|
    ensures r == s[..|r|]
    ensures |s| <= MessageLimit ==> r == s
  {
    if |s| <= MessageLimit then s else s[..MessageLimit]
  }

  /** `not content.strip()`. */
  predicate Blank(s: string) {
    |Strip(s)| == 0
  }

  /** What one message contributes: nothing when its text is blank, else the text cut to the limit. */
  function Piece(m: Message): seq<string> {
    var text := CopyText(m);
    if Blank(text) then [] else [Cut(text)]
  }

  /** What the copier posts for a thread history read oldest first: it stops at the bot's own first message. */
  function CopiedMessages(history: seq<Message>): seq<string>
    decreases |history|
  {
    if |history| == 0 || history[0].fromBot then []
    else Piece(history[0]) + CopiedMessages(history[1..])
  }

  /** The copier's result from position `i` on: nothing once the bot's message is reached. */
  lemma CopiedStops(history: seq<Message>, i: nat, sent: seq<string>)
    requires i < |history| && history[i].fromBot
    ensures sent + CopiedMessages(history[i..]) == sent
  {
    assert history[i..][0] == history[i];
  }

  /** The copier's result from position `i` on: this message's piece, then the rest. */
  lemma CopiedStep(history: seq<Message>, i: nat, sent: seq<string>)
    requires i < |history| && !history[i].fromBot
    ensures sent + CopiedMessages(history[i..]) == (sent + Piece(history[i])) + CopiedMessages(history[i + 1..])
  {
    assert history[i..][0] == history[i] && history[i..][1..] == history[i + 1..];
  }

  /** The inner loop of `copy_messages`: each attachment URL on a line of its own. */
  method AppendAttachments(content: string, urls: seq<string>) returns (r: string)
    ensures r == content + AttachmentLines(urls)
  {
    r := content;
    var j := 0;
    while j < |urls|
      invariant 0 <= j <= |urls|
      invariant r == content + AttachmentLines(urls[..j])
    {
      assert urls[..j + 1][..j] == urls[..j];
      r := r + "\n" + urls[j];
      j := j + 1;
    }
    assert urls[..j] == urls;
  }

  /** `copy_messages(thread, new_channel)`, returning the texts it sends in order. */
  method CopyMessages(history: seq<Message>) returns (sent: seq<string>)
    ensures sent == CopiedMessages(history)
  {
    sent := [];
    var i := 0;
    while i < |history|
      invariant 0 <= i <= |history|
      invariant sent + CopiedMessages(history[i..]) == CopiedMessages(history)
    {
      var msg := history[i];
      if msg.fromBot {
        CopiedStops(history, i, sent);
        return;
      }
      var piece := CopyOne(msg);
      CopiedStep(history, i, sent);
      sent := sent + piece;
      i := i + 1;
    }
    assert history[i..] == [];
  }

  /** The loop body for one message: its text with the attachment lines, skipped when blank. */
  method CopyOne(msg: Message) returns (piece: seq<string>)
    ensures piece == Piece(msg)
  {
    var content := AppendAttachments("**" + msg.authorDisplayName + ":** " + msg.content, msg.attachmentUrls);
    if |Strip(content)| == 0 {
      return [];
    }
    piece := [Cut(content)];
  }

  /** Text that starts with a non-whitespace character survives `strip()`. */
  lemma StripKeepsNonSpaceHead(s: string)
    requires |s| > 0 && !IsSpace(s[0])
    ensures |Strip(s)| > 0
  {
    var t := TrimEnd(s);
    assert |t| > 0;
    assert t[0] == s[0];
  }

  /** Each message's text starts with "**", so it is never blank: every message contributes its cut text. */
  lemma PieceNeverBlank(m: Message)
    ensures Piece(m) == [Cut(CopyText(m))]
  {
    var text := CopyText(m);
    assert text[0] == '*';
    StripKeepsNonSpaceHead(text);
  }

  /** Each message contributes exactly one text. */
  lemma PieceIsOneText(m: Message)
    ensures |Piece(m)| == 1
  {
    PieceNeverBlank(m);
  }

  /** Every message before the bot's first one contributes exactly one text. */
  lemma {:induction false} CopiedMessagesCount(history: seq<Message>, stop: nat)
    requires stop <= |history| && (stop < |history| ==> history[stop].fromBot)
    requires forall k :: 0 <= k < stop ==> !history[k].fromBot
    ensures |CopiedMessages(history)| == stop
    decreases stop
  {
    if stop > 0 {
      CopiedMessagesCount(history[1..], stop - 1);
      PieceIsOneText(history[0]);
    }
  }

  /** The `k`-th text sent is the `k`-th message's one text. */
  lemma {:induction false} CopiedMessagesAt(history: seq<Message>, stop: nat, k: nat)
    requires stop <= |history| && (stop < |history| ==> history[stop].fromBot)
    requires forall m :: 0 <= m < stop ==> !history[m].fromBot
    requires k < stop
    ensures k < |CopiedMessages(history)| && |Piece(history[k])| == 1
    ensures CopiedMessages(history)[k] == Piece(history[k])[0]
    decreases stop
  {
    if k > 0 {
      var tail := history[1..];
      CopiedMessagesAt(tail, stop - 1, k - 1);
      assert tail[k - 1] == history[k];
      CopiedShift(history, k);
    } else {
      PieceIsOneText(history[0]);
    }
  }

  /** Past the first message's one text, the copier's texts are those of the rest of the history. */
  lemma CopiedShift(history: seq<Message>, k: nat)
    requires |history| > 0 && !history[0].fromBot
    requires 0 < k <= |CopiedMessages(history[1..])|
    ensures k < |CopiedMessages(history)| && CopiedMessages(history)[k] == CopiedMessages(history[1..])[k - 1]
  {
    PieceIsOneText(history[0]);
  }

  /**
   * Every message before the bot's first one is copied, each cut to the first
   * 2000 characters of its text: the blank-text guard never skips one, since
   * the text always starts with the bold author name.
   */
  lemma CopiedMessagesAll(history: seq<Message>, stop: nat)
    requires stop <= |history| && (stop < |history| ==> history[stop].fromBot)
    requires forall k :: 0 <= k < stop ==> !history[k].fromBot
    ensures |CopiedMessages(history)| == stop
    ensures forall k :: 0 <= k < stop ==> CopiedMessages(history)[k] == Cut(CopyText(history[k]))
  {
    CopiedMessagesCount(history, stop);
    forall k | 0 <= k < stop
      ensures CopiedMessages(history)[k] == Cut(CopyText(history[k]))
    {
      CopiedMessagesAt(history, stop, k);
      PieceNeverBlank(history[k]);
    }
  }
}
