/**
 * The vocabulary map: a table of rules read from a text file, one rule
 * per line, `key<TAB>target target ...`. The rule of a key of `n`
 * space-separated words is kept in the table of `n`-grams; the targets
 * are stored as vocabulary ids. A set of fixed candidates collects the
 * special tokens and the targets of the empty 1-gram key.
 */
module VocabMap {
  import opened Wrappers

  /** What the map needs of the vocabulary: `to_id` and the four special tokens. */
  datatype Vocabulary = Vocabulary(toId: string -> nat, unk: string, bos: string, eos: string, pad: string)

  /** The variables of the character loop of one line. */
  datatype LineState = LineState(token: string, key: string, values: seq<nat>, target: bool, ngram: nat)

  /** One line's rule: the key, its `ngram` order and the target ids. */
  datatype MapRule = MapRule(key: string, ngram: nat, values: seq<nat>)

  /** The loop variables as one line starts. */
  const Start := LineState("", "", [], false, 1)

  /** One character of the loop: a tab swaps key and token, a space ends a target or extends the key. */
  function Step(st: LineState, c: char, toId: string -> nat): LineState {
    if c == '\t' then
      st.(target := true, key := st.token, token := st.key)
    else if c == ' ' then
      if st.target then st.(values := st.values + [toId(st.token)], token := "")
      else st.(token := st.token + [c], ngram := st.ngram + 1)
    else
      st.(token := st.token + [c])
  }

  /** The loop variables after the characters `s`. */
  function Run(s: string, toId: string -> nat): (st: LineState)
    ensures st.ngram >= 1
  {
    if s == [] then Start else Step(Run(s[..|s| - 1], toId), s[|s| - 1], toId)
  }

  /** The rule of a line: after the loop, a token left over is one more target. */
  function RuleOf(line: string, toId: string -> nat): (r: MapRule)
    ensures r.ngram >= 1
  {
    var st := Run(line, toId);
    MapRule(st.key, st.ngram, if st.token != [] then st.values + [toId(st.token)] else st.values)
  }

  /**
   * The body of the loop over the lines of the constructor for one line:
   * its key, `ngram` and target ids.
   */
  method ParseLine(line: string, vocab: Vocabulary) returns (key: string, ngram: nat, values: seq<nat>)
    ensures MapRule(key, ngram, values) == RuleOf(line, vocab.toId)
  {
    var token := "";
    key := "";
    values := [];
    var target := false;
    ngram := 1;
    for i := 0 to |line|
      invariant LineState(token, key, values, target, ngram) == Run(line[..i], vocab.toId)
    {
      assert line[..i + 1][..i] == line[..i];
      if line[i] == '\t' {
        target := true;
        key, token := token, key;
      } else if line[i] == ' ' {
        if target {
          values := values + [vocab.toId(token)];
          token := "";
        } else {
          token := token + [line[i]];
          ngram := ngram + 1;
        }
      } else {
        token := token + [line[i]];
      }
    }
    assert line[..|line|] == line;
    if token != [] {
      values := values + [vocab.toId(token)];
    }
  }

  /** The loop variables after one more character. */
  lemma RunSnoc(s: string, c: char, toId: string -> nat)
    ensures Run(s + [c], toId) == Step(Run(s, toId), c, toId)
  {
    assert (s + [c])[..|s|] == s;
  }

  /**
   * `s` cut at its spaces: the pieces each closed by a space, and the
   * piece after the last space, still open.
   */
  datatype Cut = Cut(closed: seq<string>, open: string)

  function Pieces(s: string): (cut: Cut)
    ensures |cut.closed| == multiset(s)[' ']
  {
    if s == [] then Cut([], "")
    else
      var cut := Pieces(s[..|s| - 1]);
      var c := s[|s| - 1];
      assert s == s[..|s| - 1] + [c];
      if c == ' ' then Cut(cut.closed + [cut.open], "") else Cut(cut.closed, cut.open + [c])
  }

  lemma PiecesSnoc(s: string, c: char)
    ensures Pieces(s + [c]) == if c == ' ' then Cut(Pieces(s).closed + [Pieces(s).open], "")
                               else Cut(Pieces(s).closed, Pieces(s).open + [c])
  {
    assert (s + [c])[..|s|] == s;
  }

  /** The pieces with a space between each two. */
  function Join(closed: seq<string>, open: string): string {
    if closed == [] then open else Join(closed[..|closed| - 1], closed[|closed| - 1]) + " " + open
  }

  /** One more character on the open piece is one more character on the joined string. */
  lemma {:induction false} JoinSnoc(closed: seq<string>, open: string, c: char)
    ensures Join(closed, open + [c]) == Join(closed, open) + [c]
  {
    if closed != [] {
      var n := |closed|;
      assert Join(closed[..n - 1], closed[n - 1]) + " " + (open + [c])
          == (Join(closed[..n - 1], closed[n - 1]) + " " + open) + [c];
    }
  }

  /** Cutting at the spaces and joining back gives the string. */
  lemma {:induction false} JoinPieces(s: string)
    ensures Join(Pieces(s).closed, Pieces(s).open) == s
  {
    if s != [] {
      var front, c := s[..|s| - 1], s[|s| - 1];
      assert s == front + [c];
      JoinPieces(front);
      PiecesSnoc(front, c);
      var cut := Pieces(front);
      if c == ' ' {
        assert (cut.closed + [cut.open])[..|cut.closed|] == cut.closed;
      } else {
        JoinSnoc(cut.closed, cut.open, c);
      }
    }
  }

  /** No piece holds a space. */
  lemma {:induction false} PiecesHaveNoSpace(s: string)
    ensures ' ' !in Pieces(s).open && forall i | 0 <= i < |Pieces(s).closed| :: ' ' !in Pieces(s).closed[i]
  {
    if s != [] {
      var front, c := s[..|s| - 1], s[|s| - 1];
      assert s == front + [c];
      PiecesHaveNoSpace(front);
      PiecesSnoc(front, c);
    }
  }

  /** `to_id` of each piece. */
  function Ids(ps: seq<string>, toId: string -> nat): (ids: seq<nat>)
    ensures |ids| == |ps| && forall i | 0 <= i < |ps| :: ids[i] == toId(ps[i])
  {
    if ps == [] then [] else Ids(ps[..|ps| - 1], toId) + [toId(ps[|ps| - 1])]
  }

  /** A line without a tab: everything is the token, the key stays empty. */
  lemma {:induction false} RunWithoutTab(s: string, toId: string -> nat)
    requires '\t' !in s
    ensures Run(s, toId) == LineState(s, "", [], false, 1 + multiset(s)[' '])
  {
    if s != [] {
      var front := s[..|s| - 1];
      assert s == front + [s[|s| - 1]];
      assert '\t' !in front;
      RunWithoutTab(front, toId);
    }
  }

  /**
   * After a tab: the words before it are the key, each space since has
   * turned the piece before it into a target id, and the piece after the
   * last space is the token.
   */
  lemma {:induction false} RunAfterTab(pre: string, post: string, toId: string -> nat)
    requires '\t' !in pre && '\t' !in post
    ensures Run(pre + "\t" + post, toId)
      == LineState(Pieces(post).open, pre, Ids(Pieces(post).closed, toId), true, 1 + multiset(pre)[' '])
    decreases |post|
  {
    if post == [] {
      RunSnoc(pre, '\t', toId);
      RunWithoutTab(pre, toId);
      assert pre + "\t" + post == pre + ['\t'];
    } else {
      var front, c := post[..|post| - 1], post[|post| - 1];
      assert post == front + [c];
      assert '\t' !in front;
      assert pre + "\t" + post == (pre + "\t" + front) + [c];
      RunAfterTab(pre, front, toId);
      RunSnoc(pre + "\t" + front, c, toId);
      PiecesSnoc(front, c);
      var cut := Pieces(front);
      if c == ' ' {
        assert (cut.closed + [cut.open])[..|cut.closed|] == cut.closed;
      }
    }
  }

  /** The targets: the closed pieces, and the open one unless it is empty. */
  function Kept(cut: Cut): seq<string> {
    if cut.open == [] then cut.closed else cut.closed + [cut.open]
  }

  /**
   * The rule of `key<TAB>targets`: the key is everything before the tab,
   * spaces included, its order is one more than its number of spaces, and
   * the targets are the ids of the space-separated pieces after the tab,
   * empty ones included but for a last one.
   */
  lemma {:induction false} OneTabRule(pre: string, post: string, toId: string -> nat)
    requires '\t' !in pre && '\t' !in post
    ensures RuleOf(pre + "\t" + post, toId) == MapRule(pre, 1 + multiset(pre)[' '], Ids(Kept(Pieces(post)), toId))
  {
    RunAfterTab(pre, post, toId);
    var cut := Pieces(post);
    assert (cut.closed + [cut.open])[..|cut.closed|] == cut.closed;
  }

  /** The rule of a line without a tab: the empty key, and the whole line, if any, as the one target. */
  lemma {:induction false} NoTabRule(s: string, toId: string -> nat)
    requires '\t' !in s
    ensures RuleOf(s, toId) == MapRule("", 1 + multiset(s)[' '], if s == [] then [] else [toId(s)])
  {
    RunWithoutTab(s, toId);
  }

  /** The rule table: `_map_rules[n]` maps the keys of order `n + 1` to their target ids. */
  type Rules = seq<map<string, seq<nat>>>

  /**
   * One rule into the table: the table grows to at least `ngram` levels,
   * the key's entry at its level is set, and every other entry stays.
   */
  function Store(rules: Rules, key: string, ngram: nat, values: seq<nat>): (r: Rules)
    requires ngram >= 1
    ensures |r| == if ngram > |rules| then ngram else |rules|
    ensures r[ngram - 1] == Level(rules, ngram - 1)[key := values]
    ensures forall n | 0 <= n < |r| && n != ngram - 1 :: r[n] == Level(rules, n)
  {
    var grown := if ngram > |rules| then rules + seq(ngram - |rules|, _ => map[]) else rules;
    grown[ngram - 1 := grown[ngram - 1][key := values]]
  }

  /** Level `n` of the table, empty where the table has not grown that far. */
  function Level(rules: Rules, n: nat): map<string, seq<nat>> {
    if n < |rules| then rules[n] else map[]
  }

  /** The table after the lines `lines`, one rule per line, in order. */
  function Table(lines: seq<string>, toId: string -> nat): Rules {
    if lines == [] then []
    else
      var r := RuleOf(lines[|lines| - 1], toId);
      Store(Table(lines[..|lines| - 1], toId), r.key, r.ngram, r.values)
  }

  /** The table has a level for the order of every line's key, and none when there are no lines. */
  lemma {:induction false} TableSize(lines: seq<string>, toId: string -> nat)
    ensures forall i | 0 <= i < |lines| :: RuleOf(lines[i], toId).ngram <= |Table(lines, toId)|
    ensures |Table(lines, toId)| == 0 <==> lines == []
  {
    if lines != [] {
      var front := lines[..|lines| - 1];
      TableSize(front, toId);
      forall i | 0 <= i < |lines| - 1 ensures lines[i] == front[i] { }
    }
  }

  /** Rules `a` and `b` are for the same key of the same order. */
  predicate SameSlot(a: MapRule, b: MapRule) {
    a.ngram == b.ngram && a.key == b.key
  }

  /** The table holds rule `r`: its key, at its order, maps to its targets. */
  predicate Holds(table: Rules, r: MapRule) {
    1 <= r.ngram <= |table| && r.key in table[r.ngram - 1] && table[r.ngram - 1][r.key] == r.values
  }

  /** Storing a rule keeps every rule held for another slot. */
  lemma StoreKeeps(rules: Rules, stored: MapRule, r: MapRule)
    requires stored.ngram >= 1 && Holds(rules, r) && !SameSlot(stored, r)
    ensures Holds(Store(rules, stored.key, stored.ngram, stored.values), r)
  {
    assert Level(rules, r.ngram - 1) == rules[r.ngram - 1];
  }

  /** An entry of the table after storing a rule is that rule's, or was there before. */
  lemma StoreFrom(rules: Rules, stored: MapRule, n: nat, k: string)
    requires stored.ngram >= 1
    requires n < |Store(rules, stored.key, stored.ngram, stored.values)|
    requires k in Store(rules, stored.key, stored.ngram, stored.values)[n]
    requires !SameSlot(stored, MapRule(k, n + 1, []))
    ensures n < |rules| && k in rules[n]
  {
  }

  /** The table after one more line. */
  lemma TableSnoc(lines: seq<string>, toId: string -> nat, line: string)
    ensures var r := RuleOf(line, toId);
      Table(lines + [line], toId) == Store(Table(lines, toId), r.key, r.ngram, r.values)
  {
    assert (lines + [line])[..|lines|] == lines;
  }

  /**
   * A line whose key no later line of the same order repeats has its
   * targets in the table: later lines overwrite, earlier ones do not.
   */
  lemma {:induction false} TableHoldsLast(lines: seq<string>, toId: string -> nat, i: nat)
    requires i < |lines|
    requires forall j | i < j < |lines| :: !SameSlot(RuleOf(lines[j], toId), RuleOf(lines[i], toId))
    ensures Holds(Table(lines, toId), RuleOf(lines[i], toId))
  {
    var front, line := lines[..|lines| - 1], lines[|lines| - 1];
    assert lines == front + [line];
    TableSnoc(front, toId, line);
    if i < |lines| - 1 {
      forall j | i < j < |front| ensures front[j] == lines[j] { }
      assert front[i] == lines[i];
      TableHoldsLast(front, toId, i);
      StoreKeeps(Table(front, toId), RuleOf(line, toId), RuleOf(lines[i], toId));
    }
  }

  /** Every entry of the table comes from a line with that key and order. */
  lemma {:induction false} TableFromLines(lines: seq<string>, toId: string -> nat, n: nat, k: string)
    requires n < |Table(lines, toId)| && k in Table(lines, toId)[n]
    ensures exists i | 0 <= i < |lines| :: SameSlot(RuleOf(lines[i], toId), MapRule(k, n + 1, []))
  {
    var front, line := lines[..|lines| - 1], lines[|lines| - 1];
    assert lines == front + [line];
    TableSnoc(front, toId, line);
    var r := RuleOf(line, toId);
    if SameSlot(r, MapRule(k, n + 1, [])) {
      assert SameSlot(RuleOf(lines[|lines| - 1], toId), MapRule(k, n + 1, []));
    } else {
      StoreFrom(Table(front, toId), r, n, k);
      TableFromLines(front, toId, n, k);
      var i :| 0 <= i < |front| && SameSlot(RuleOf(front[i], toId), MapRule(k, n + 1, []));
      assert front[i] == lines[i];
    }
  }

  /** The ids of the four special tokens. */
  function Specials(vocab: Vocabulary): set<nat> {
    {vocab.toId(vocab.unk), vocab.toId(vocab.bos), vocab.toId(vocab.eos), vocab.toId(vocab.pad)}
  }

  class VocabularyMap {
    var mapRules: Rules
    var fixedCandidates: set<nat>

    /**
     * The constructor: `file` is the map file's lines, or `None` when it
     * cannot be opened, in which case the map stays empty.
     */
    constructor (file: Option<seq<string>>, vocab: Vocabulary)
      requires file.Some? ==> file.value != []
      ensures file.None? ==> mapRules == [] && fixedCandidates == {}
      ensures file.Some? ==> mapRules == Table(file.value, vocab.toId) && |mapRules| > 0
      ensures file.Some? ==> forall v :: v in fixedCandidates <==>
        v in Specials(vocab) || ("" in mapRules[0] && v in mapRules[0][""])
      ensures Empty() <==> file.None?
    {
      mapRules := [];
      fixedCandidates := {};
      new;
      if file.Some? {
        var lines := file.value;
        for l := 0 to |lines|
          invariant mapRules == Table(lines[..l], vocab.toId) && fixedCandidates == {}
        {
          AddRule(lines[l], vocab);
          TableSnoc(lines[..l], vocab.toId, lines[l]);
          assert lines[..l + 1] == lines[..l] + [lines[l]];
        }
        assert lines[..|lines|] == lines;
        TableSize(lines, vocab.toId);
        AddFixedCandidates(vocab);
      }
    }

    /** The body of the loop over the lines: the line's rule into the table, grown as needed. */
    method AddRule(line: string, vocab: Vocabulary)
      modifies this
      ensures var r := RuleOf(line, vocab.toId);
        mapRules == Store(old(mapRules), r.key, r.ngram, r.values)
      ensures fixedCandidates == old(fixedCandidates)
    {
      var key, ngram, values := ParseLine(line, vocab);
      if ngram > |mapRules| {
        mapRules := mapRules + seq(ngram - |mapRules|, _ => map[]);
      }
      mapRules := mapRules[ngram - 1 := mapRules[ngram - 1][key := values]];
    }

    /**
     * The fixed candidates: the ids of the special tokens, then the
     * targets of the empty key among the 1-grams, if it has a rule.
     */
    method AddFixedCandidates(vocab: Vocabulary)
      requires |mapRules| > 0
      modifies this
      ensures mapRules == old(mapRules)
      ensures forall v :: v in fixedCandidates <==>
        v in old(fixedCandidates) || v in Specials(vocab) || ("" in mapRules[0] && v in mapRules[0][""])
    {
      fixedCandidates := fixedCandidates + {vocab.toId(vocab.unk)};
      fixedCandidates := fixedCandidates + {vocab.toId(vocab.bos)};
      fixedCandidates := fixedCandidates + {vocab.toId(vocab.eos)};
      fixedCandidates := fixedCandidates + {vocab.toId(vocab.pad)};
      if "" in mapRules[0] {
        fixedCandidates := fixedCandidates + set v | v in mapRules[0][""];
      }
    }

    /** `empty()`: the table has no level. */
    predicate Empty()
      reads this
    {
      |mapRules| == 0
    }
  }
}
