/**
 * The two message listeners that react with an emoji: `Potato` (🥔) and
 * `OneHundred` (💯). Each walks its word list and adds its reaction once per
 * word that occurs in the message text as a case-sensitive substring; Discord
 * shows the reaction once however many times it is added.
 */
module Reactions {
  import opened PyStrings

  /** Potato.POTATOES. */
  const Potatoes: seq<string> := ["bake", "baked", "potat", "potato", "potatoes", "potatos", "potato's", "tato", "tatos", "tato's"]

  /** OneHundred.HUNDRED. */
  const Hundred: seq<string> := ["100 ", " 100", "100devs"]

  /** The words of `words` that occur in `content`, in list order: one `add_reaction` call each. */
  function MatchingWords(words: seq<string>, content: string): (r: seq<string>)
    ensures |r| <= |words|
    ensures forall w :: w in r <==> w in words && Contains(content, w)
    decreases |words|
  {
    if |words| == 0 then []
    else (if Contains(content, words[0]) then [words[0]] else []) + MatchingWords(words[1..], content)
  }

  /** The positions, from `from` on, of the words of `words` that occur in `content`: ascending, each once. */
  function MatchingPositions(words: seq<string>, content: string, from: nat): (r: seq<nat>)
    ensures forall j :: 0 <= j < |r| ==> from <= r[j] < |words|
    ensures forall a, b :: 0 <= a < b < |r| ==> r[a] < r[b]
    ensures forall k :: from <= k < |words| ==> (k in r <==> Contains(content, words[k]))
    decreases |words| - from
  {
    if from >= |words| then []
    else (if Contains(content, words[from]) then [from] else []) + MatchingPositions(words, content, from + 1)
  }

  /** `MatchingWords` on the tail from `from` has one entry per matching position. */
  lemma {:induction false} MatchingWordsFromLength(words: seq<string>, content: string, from: nat)
    requires from <= |words|
    ensures |MatchingWords(words[from..], content)| == |MatchingPositions(words, content, from)|
    decreases |words| - from
  {
    if from < |words| {
      MatchingWordsFromLength(words, content, from + 1);
      assert words[from..][1..] == words[from + 1..];
    }
  }

  /** The `j`-th entry of `MatchingWords` on the tail from `from` is the word at the `j`-th matching position. */
  lemma {:induction false} MatchingWordsFromAt(words: seq<string>, content: string, from: nat, j: nat)
    requires from <= |words|
    requires j < |MatchingWords(words[from..], content)| && j < |MatchingPositions(words, content, from)|
    ensures MatchingWords(words[from..], content)[j] == words[MatchingPositions(words, content, from)[j]]
    decreases |words| - from
  {
    var tail := words[from..];
    assert tail[1..] == words[from + 1..];
    var r, rest := MatchingWords(tail, content), MatchingWords(words[from + 1..], content);
    var idx, restIdx := MatchingPositions(words, content, from), MatchingPositions(words, content, from + 1);
    if !Contains(content, words[from]) {
      assert r == rest && idx == restIdx;
      MatchingWordsFromAt(words, content, from + 1, j);
    } else if j > 0 {
      assert r[j] == rest[j - 1] && idx[j] == restIdx[j - 1];
      MatchingWordsFromAt(words, content, from + 1, j - 1);
    }
  }

  /**
   * One reaction per matching list entry, in list order: the `j`-th reaction
   * is for the `j`-th matching position, and the positions ascend, so no entry
   * is reacted to twice and none is skipped.
   */
  lemma MatchingWordsOnePerMatch(words: seq<string>, content: string)
    ensures |MatchingWords(words, content)| == |MatchingPositions(words, content, 0)|
    ensures forall j :: 0 <= j < |MatchingWords(words, content)| ==>
      MatchingWords(words, content)[j] == words[MatchingPositions(words, content, 0)[j]]
  {
    assert words[0..] == words;
    MatchingWordsFromLength(words, content, 0);
    forall j | 0 <= j < |MatchingWords(words, content)|
      ensures MatchingWords(words, content)[j] == words[MatchingPositions(words, content, 0)[j]]
    {
      MatchingWordsFromAt(words, content, 0, j);
    }
  }

  /** `Potato.on_message`: the number of potato reactions added. */
  function PotatoReactions(content: string): nat {
    |MatchingWords(Potatoes, content)|
  }

  /** `OneHundred.on_message`: the number of 💯 reactions added. */
  function HundredReactions(content: string): nat {
    |MatchingWords(Hundred, content)|
  }

  /** A text that contains `w` contains everything `w` contains. */
  lemma ContainsTransitive(s: string, w: string, v: string)
    requires Contains(s, w) && Contains(w, v)
    ensures Contains(s, v)
  {
    ContainsIff(s, w);
    var i: nat :| OccursAt(s, w, i);
    ContainsInSlice(s, i, i + |w|, v);
  }

  /** Every potato word contains "bake", "potat" or "tato". */
  lemma PotatoWordCore(w: string)
    requires w in Potatoes
    ensures Contains(w, "bake") || Contains(w, "potat") || Contains(w, "tato")
  {
    if w == "bake" || w == "baked" {
      assert StartsWith(w, "bake");
    } else if w == "tato" || w == "tatos" || w == "tato's" {
      assert StartsWith(w, "tato");
    } else {
      assert StartsWith(w, "potat");
    }
  }

  /**
   * The ten potato words come down to three: a message gets the potato
   * reaction exactly when it contains "bake", "potat" or "tato".
   */
  lemma PotatoTriggers(content: string)
    ensures PotatoReactions(content) > 0 <==>
      Contains(content, "bake") || Contains(content, "potat") || Contains(content, "tato")
  {
    var m := MatchingWords(Potatoes, content);
    if |m| > 0 {
      var w := m[0];
      assert w in m;
      PotatoWordCore(w);
      if Contains(w, "bake") {
        ContainsTransitive(content, w, "bake");
      } else if Contains(w, "potat") {
        ContainsTransitive(content, w, "potat");
      } else {
        ContainsTransitive(content, w, "tato");
      }
    } else {
      assert Potatoes[0] == "bake" && Potatoes[2] == "potat" && Potatoes[7] == "tato";
      assert "bake" !in m && "potat" !in m && "tato" !in m;
    }
  }

  /** Case matters: "Potato" does not contain "potat", yet it still gets the reaction, through "tato". */
  lemma CapitalPotato()
    ensures !Contains("Potato", "potat")
    ensures PotatoReactions("Potato") > 0
  {
    ContainsIff("Potato", "potat");
    forall i: nat ensures !OccursAt("Potato", "potat", i) {
      if i + 5 <= 6 {
        assert "Potato"[i..i + 5][0] == "Potato"[i];
      }
    }
    assert OccursAt("Potato", "tato", 2);
    ContainsIff("Potato", "tato");
    PotatoTriggers("Potato");
  }

  /** A word longer than the text does not occur in it. */
  lemma {:induction false} AbsentLonger(s: string, w: string)
    requires |w| > |s|
    ensures !Contains(s, w)
    decreases |s|
  {
    if |s| > 0 {
      AbsentLonger(s[1..], w);
    }
  }

  /** A word whose first character is nowhere in the text does not occur in it. */
  lemma {:induction false} AbsentHead(s: string, w: string)
    requires |w| > 0 && w[0] !in s
    ensures !Contains(s, w)
    decreases |s|
  {
    if |s| > 0 {
      if |w| <= |s| {
        assert s[..|w|][0] == s[0];
      }
      assert s == [s[0]] + s[1..];
      AbsentHead(s[1..], w);
    }
  }

  /** A word whose last character is nowhere in the text does not occur in it. */
  lemma {:induction false} AbsentLast(s: string, w: string)
    requires |w| > 0 && w[|w| - 1] !in s
    ensures !Contains(s, w)
    decreases |s|
  {
    if |s| > 0 {
      if |w| <= |s| {
        assert s[..|w|][|w| - 1] == s[|w| - 1];
      }
      assert s == [s[0]] + s[1..];
      AbsentLast(s[1..], w);
    }
  }

  /** A word as long as the text occurs in it only if it is the text. */
  lemma AbsentSameLength(s: string, w: string)
    requires |w| == |s| > 0 && w != s
    ensures !Contains(s, w)
  {
    assert s[..|w|] == s;
    AbsentLonger(s[1..], w);
  }

  /** "potato" contains the list words "potat" and "tato". */
  lemma PotatoParts()
    ensures Contains("potato", "potat") && Contains("potato", "tato")
  {
    assert StartsWith("potato", "potat");
    assert OccursAt("potato", "tato", 2);
    ContainsIff("potato", "tato");
  }

  /**
   * A message containing "potato" gets the potato reaction several times, for
   * "potat", "potato" and "tato" at least: the list words are substrings of
   * each other.
   */
  lemma PotatoMatchesSeveralWords(content: string)
    requires Contains(content, "potato")
    ensures "potat" in MatchingWords(Potatoes, content)
    ensures "potato" in MatchingWords(Potatoes, content)
    ensures "tato" in MatchingWords(Potatoes, content)
  {
    PotatoParts();
    ContainsTransitive(content, "potato", "potat");
    ContainsTransitive(content, "potato", "tato");
    PotatoListHas();
  }

  /** The three words, as members of the potato list. */
  lemma PotatoListHas()
    ensures "potat" in Potatoes && "potato" in Potatoes && "tato" in Potatoes
  {
    assert Potatoes[2] == "potat" && Potatoes[3] == "potato" && Potatoes[7] == "tato";
  }

  /** Matching is case-sensitive: "100Devs" does not contain "100devs", and gets no 💯. */
  lemma HundredIsCaseSensitive()
    ensures HundredReactions("100Devs") == 0
  {
    var s := "100Devs";
    AbsentLast(s, "100 ");
    AbsentHead(s, " 100");
    AbsentSameLength(s, "100devs");
    assert MatchingWords(Hundred, s) == [];
  }

  /** "100" on its own gets no 💯: every trigger needs a space or "devs" next to it. */
  lemma HundredAloneNoReaction()
    ensures HundredReactions("100") == 0
  {
    forall w | w in Hundred ensures !Contains("100", w) {
      ContainsIff("100", w);
    }
    assert MatchingWords(Hundred, "100") == [];
  }

  /** "100 100" matches "100 " and " 100": two reactions are added, shown once. */
  lemma HundredTwice()
    ensures MatchingWords(Hundred, "100 100") == ["100 ", " 100"]
  {
    assert StartsWith("100 100", "100 ");
    assert OccursAt("100 100", " 100", 3);
    ContainsIff("100 100", " 100");
    ContainsIff("100 100", "100devs");
  }
}
