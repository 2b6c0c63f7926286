/**
 * The transaction-totals summary of a settlement report: cell [0,0] holds free
 * text such as "Visa: 12 MasterCard: 3", which is tokenised with the regular
 * expression `(\w+): (\d+)` into label/count pairs, folded into a dictionary
 * (a repeated label keeps its last count) and printed as a fixed six-line card.
 *
 * The regular expression is modelled by a hand-written scanner with the same
 * semantics as Python's `re.findall` for this pattern: matches are searched for
 * from left to right, never overlap, and each one is as long as possible.
 * Character classes are the ASCII ones.
 */
module Summary {
  import opened Wrappers

  /** The two character classes of the pattern: `\w` and `\d`. */
  datatype CharClass = Word | Digit

  predicate InClass(cls: CharClass, c: char) {
    match cls
    case Word => 'a' <= c <= 'z' || 'A' <= c <= 'Z' || '0' <= c <= '9' || c == '_'
    case Digit => '0' <= c <= '9'
  }

  /** Every character of s is in the class, and there is at least one. */
  predicate NonEmptyRun(s: string, cls: CharClass) {
    0 < |s| && forall i :: 0 <= i < |s| ==> InClass(cls, s[i])
  }

  /** A label and a count as the tokeniser yields them. */
  type Pair = (string, string)

  predicate WellFormed(p: Pair) {
    NonEmptyRun(p.0, Word) && NonEmptyRun(p.1, Digit)
  }

  /** Length of the longest prefix of s made of characters of the class (a greedy `+`). */
  function Run(s: string, cls: CharClass): (n: nat)
    ensures n <= |s|
    ensures forall i :: 0 <= i < n ==> InClass(cls, s[i])
    ensures n < |s| ==> !InClass(cls, s[n])
  {
    if 0 < |s| && InClass(cls, s[0]) then 1 + Run(s[1..], cls) else 0
  }

  /** One match of the pattern found at the start of the text. */
  datatype Token = Token(key: string, value: string, width: nat)

  /** The match of `(\w+): (\d+)` anchored at the first character of s, if there is one. */
  function MatchAt(s: string): (r: Option<Token>)
    ensures r.Some? ==> WellFormed((r.value.key, r.value.value))
    ensures r.Some? ==> r.value.width == |r.value.key| + 2 + |r.value.value| <= |s|
    ensures r.Some? ==> s[..r.value.width] == r.value.key + ": " + r.value.value
    ensures r.Some? ==> r.value.width == |s| || !InClass(Digit, s[r.value.width])
  {
    var w := Run(s, Word);
    if 0 < w && w + 2 < |s| && s[w] == ':' && s[w + 1] == ' ' && InClass(Digit, s[w + 2]) then
      var d := Run(s[w + 2..], Digit);
      assert s[..w + 2 + d] == s[..w] + ": " + s[w + 2..][..d];
      Some(Token(s[..w], s[w + 2..][..d], w + 2 + d))
    else
      None
  }

  /** The pairs `re.findall(r'(\w+): (\d+)', s)` returns, in order. */
  function FindAll(s: string): (ps: seq<Pair>)
    ensures forall i :: 0 <= i < |ps| ==> WellFormed(ps[i])
    decreases |s|
  {
    if |s| == 0 then []
    else
      match MatchAt(s)
      case Some(t) => [(t.key, t.value)] + FindAll(s[t.width..])
      case None => FindAll(s[1..])
  }

  // ---------------------------------------------------------------------------
  // What the scanner finds in any text

  /** Every pair found is the match anchored at some position of the text. */
  lemma {:induction false} PairsOccur(s: string, k: int)
    requires 0 <= k < |FindAll(s)|
    ensures exists i :: 0 <= i < |s| && MatchAt(s[i..]).Some? && FindAll(s)[k] == Found(s[i..])
  {
    var i := PairPosition(s, k);
    assert PairAt(s, i, k);
  }

  /** The pair a match anchored at the start of the text yields. */
  function Found(s: string): Pair
    requires MatchAt(s).Some?
  {
    (MatchAt(s).value.key, MatchAt(s).value.value)
  }

  /** The k-th pair found in s is the match anchored at position i. */
  predicate PairAt(s: string, i: int, k: int) {
    0 <= i < |s| && MatchAt(s[i..]).Some? && 0 <= k < |FindAll(s)| && FindAll(s)[k] == Found(s[i..])
  }

  /** A position where the k-th pair found is matched. */
  lemma {:induction false} PairPosition(s: string, k: int) returns (i: int)
    requires 0 <= k < |FindAll(s)|
    ensures PairAt(s, i, k)
    decreases |s|
  {
    if MatchAt(s).None? {
      i := PairAfterMiss(s, k);
    } else if k == 0 {
      i := FirstPair(s);
    } else {
      i := PairAfterMatch(s, k);
    }
  }

  /** A match anchored at the start of the text is the first pair found. */
  lemma FirstPair(s: string) returns (i: int)
    requires MatchAt(s).Some?
    ensures PairAt(s, i, 0)
  {
    i := 0;
    assert s[0..] == s;
  }

  /** Past a match, the k-th pair is the (k-1)-th pair of the rest of the text. */
  lemma {:induction false} PairAfterMatch(s: string, k: int) returns (i: int)
    requires MatchAt(s).Some? && 0 < k < |FindAll(s)|
    ensures PairAt(s, i, k)
    decreases |s|, 0
  {
    var w := MatchAt(s).value.width;
    ScanMatch(s);
    var j := PairPosition(s[w..], k - 1);
    i := w + j;
    FoundAfter(s, w, j, i);
    ConsIndex(FindAll(s), Found(s), FindAll(s[w..]), k, Found(s[i..]));
  }

  /** Where no match starts the text, the k-th pair is the k-th pair of its tail. */
  lemma {:induction false} PairAfterMiss(s: string, k: int) returns (i: int)
    requires MatchAt(s).None? && 0 <= k < |FindAll(s)|
    ensures PairAt(s, i, k)
    decreases |s|, 0
  {
    ScanNoMatch(s);
    var j := PairPosition(s[1..], k);
    i := 1 + j;
    FoundAfter(s, 1, j, i);
  }

  /** Where a match starts the text, the scan yields it and goes on after it. */
  lemma ScanMatch(s: string)
    requires MatchAt(s).Some?
    ensures 0 < MatchAt(s).value.width <= |s|
    ensures FindAll(s) == [Found(s)] + FindAll(s[MatchAt(s).value.width..])
  {
  }

  /** Where no match starts a nonempty text, the scan goes on from the next character. */
  lemma ScanNoMatch(s: string)
    requires 0 < |FindAll(s)| && MatchAt(s).None?
    ensures 0 < |s| && FindAll(s) == FindAll(s[1..])
  {
  }

  /** The k-th element of x followed by ys is the (k-1)-th element of ys. */
  lemma ConsIndex<X>(xs: seq<X>, x: X, ys: seq<X>, k: int, y: X)
    requires xs == [x] + ys && 0 < k <= |ys| && ys[k - 1] == y
    ensures xs[k] == y
  {
  }

  /** A match found after skipping w characters and then j more is the match at i = w + j. */
  lemma FoundAfter(s: string, w: nat, j: int, i: int)
    requires w <= |s| && 0 <= j < |s[w..]| && MatchAt(s[w..][j..]).Some? && i == w + j
    ensures i < |s| && MatchAt(s[i..]).Some? && Found(s[w..][j..]) == Found(s[i..])
  {
    assert s[w..][j..] == s[i..];
  }

  /** A text in which no position starts a match yields no pairs. */
  lemma {:induction false} NoMatchNoPairs(s: string)
    requires forall i :: 0 <= i < |s| ==> MatchAt(s[i..]).None?
    ensures FindAll(s) == []
    decreases |s|
  {
    if 0 < |s| {
      assert s[0..] == s;
      var rest := s[1..];
      forall i | 0 <= i < |rest|
        ensures MatchAt(rest[i..]).None?
      {
        assert rest[i..] == s[i + 1..];
      }
      NoMatchNoPairs(rest);
    }
  }

  /** A text in which some position starts a match yields at least one pair. */
  lemma {:induction false} SomeMatchSomePair(s: string, i: int)
    requires 0 <= i < |s| && MatchAt(s[i..]).Some?
    ensures FindAll(s) != []
    decreases i
  {
    if 0 < i && MatchAt(s).None? {
      assert s[1..][i - 1..] == s[i..];
      SomeMatchSomePair(s[1..], i - 1);
    }
  }

  /** A label and a count written back as text, each pair followed by a space. */
  function Join(ps: seq<Pair>): string {
    if |ps| == 0 then "" else ps[0].0 + ": " + ps[0].1 + " " + Join(ps[1..])
  }

  /** The dictionary comprehension: later pairs overwrite earlier ones. */
  function ToMap(ps: seq<Pair>): (m: map<string, string>)
    ensures forall i :: 0 <= i < |ps| ==> ps[i].0 in m
    ensures forall k :: k in m ==> exists i :: 0 <= i < |ps| && ps[i] == (k, m[k])
  {
    if |ps| == 0 then map[] else ToMap(ps[..|ps| - 1])[ps[|ps| - 1].0 := ps[|ps| - 1].1]
  }

  /** The label/count dictionary built from a summary cell. */
  function Totals(s: string): (m: map<string, string>)
    ensures forall k :: k in m ==> NonEmptyRun(k, Word) && NonEmptyRun(m[k], Digit)
    ensures forall i :: 0 <= i < |FindAll(s)| ==> FindAll(s)[i].0 in m
  {
    ToMap(FindAll(s))
  }

  /** `dict.get(key, '0')`. */
  function Lookup(m: map<string, string>, key: string): (r: string)
    ensures key in m ==> r == m[key]
    ensures key !in m ==> r == "0"
  {
    if key in m then m[key] else "0"
  }

  /** The printed names of the six card lines, and the dictionary keys they are read from. */
  const CardLabels: seq<string> :=
    ["Visa", "MasterCard", "American Express", "Discover", "Apple Pay", "ACH (eCheck)"]
  const CardKeys: seq<string> := ["Visa", "MasterCard", "American", "Discover", "Apple", "ACH"]

  /** The six-line "Transaction Totals:" card: each label followed by its count, "0" when absent. */
  function Card(m: map<string, string>): (lines: seq<string>)
    ensures |lines| == 6
  {
    seq(6, i requires 0 <= i < 6 => CardLabels[i] + ": " + Lookup(m, CardKeys[i]))
  }

  // ---------------------------------------------------------------------------
  // The scanner finds every match and only matches.

  /**
   * The anchored matcher misses nothing: when s starts with a label, ": " and a
   * count, MatchAt finds exactly that label and a count that extends the one given.
   */
  lemma {:induction false} MatchAtComplete(s: string, key: string, value: string)
    requires WellFormed((key, value))
    requires |key| + 2 + |value| <= |s| && s[..|key| + 2 + |value|] == key + ": " + value
    ensures MatchAt(s).Some?
    ensures MatchAt(s).value.key == key
    ensures |value| <= |MatchAt(s).value.value| && MatchAt(s).value.value[..|value|] == value
  {
    var n := |key|;
    assert s[..n] == key && s[n] == ':' && s[n + 1] == ' ' by {
      assert s[..n] == s[..n + 2 + |value|][..n];
      assert s[n] == s[..n + 2 + |value|][n];
      assert s[n + 1] == s[..n + 2 + |value|][n + 1];
    }
    RunCovers(s, Word, n);
    assert s[n + 2] == s[..n + 2 + |value|][n + 2] == value[0];
    var t := s[n + 2..];
    assert t[..|value|] == value by {
      assert t[..|value|] == s[..n + 2 + |value|][n + 2..];
    }
    RunCovers(t, Digit, |value|);
  }

  /** A run that covers a prefix of length n stops exactly there when the next character is outside the class. */
  lemma {:induction false} RunCovers(s: string, cls: CharClass, n: nat)
    requires n <= |s| && forall i :: 0 <= i < n ==> InClass(cls, s[i])
    ensures n <= Run(s, cls)
    ensures n < |s| && !InClass(cls, s[n]) ==> Run(s, cls) == n
  {
    if n > 0 {
      RunCovers(s[1..], cls, n - 1);
    }
  }

  /** A text starting with a character outside `\w` cannot start a match. */
  lemma {:induction false} SkipNonWord(c: char, rest: string)
    requires !InClass(Word, c)
    ensures FindAll([c] + rest) == FindAll(rest)
  {
    var s := [c] + rest;
    assert Run(s, Word) == 0;
    assert s[1..] == rest;
  }

  /** One written pair is read back as that pair, and scanning resumes after it. */
  lemma {:induction false} ReadOnePair(p: Pair, rest: string)
    requires WellFormed(p)
    ensures FindAll(p.0 + ": " + p.1 + " " + rest) == [p] + FindAll(rest)
  {
    var s := p.0 + ": " + p.1 + " " + rest;
    var w := |p.0| + 2 + |p.1|;
    assert s[..w] == p.0 + ": " + p.1;
    MatchAtComplete(s, p.0, p.1);
    var t := MatchAt(s).value;
    assert s[w] == ' ';
    assert t.value == p.1 by {
      var u := s[|p.0| + 2..];
      assert u[..|p.1|] == p.1 && u[|p.1|] == ' ';
      RunCovers(u, Digit, |p.1|);
    }
    assert s[w..] == [' '] + rest;
    SkipNonWord(' ', rest);
  }

  /** Round trip: the tokeniser reads back exactly the pairs that were written. */
  lemma {:induction false} FindAllJoin(ps: seq<Pair>)
    requires forall i :: 0 <= i < |ps| ==> WellFormed(ps[i])
    ensures FindAll(Join(ps)) == ps
  {
    if |ps| > 0 {
      ReadOnePair(ps[0], Join(ps[1..]));
      FindAllJoin(ps[1..]);
    }
  }

  // ---------------------------------------------------------------------------
  // The dictionary keeps the last count of each label.

  /** A label that occurs nowhere among the pairs is absent from the dictionary. */
  lemma {:induction false} ToMapAbsent(ps: seq<Pair>, key: string)
    requires forall i :: 0 <= i < |ps| ==> ps[i].0 != key
    ensures key !in ToMap(ps)
  {
    if |ps| > 0 {
      ToMapAbsent(ps[..|ps| - 1], key);
    }
  }

  /** A label's entry in the dictionary is the count of its last occurrence. */
  lemma {:induction false} ToMapLastWins(ps: seq<Pair>, i: int)
    requires 0 <= i < |ps|
    requires forall j :: i < j < |ps| ==> ps[j].0 != ps[i].0
    ensures ps[i].0 in ToMap(ps) && ToMap(ps)[ps[i].0] == ps[i].1
  {
    if i < |ps| - 1 {
      ToMapLastWins(ps[..|ps| - 1], i);
    }
  }

  // ---------------------------------------------------------------------------
  // The card.

  /**
   * A summary in which no position starts a `label: count` match yields six zero
   * lines rather than an error.
   */
  lemma {:induction false} NoMatchAllZeros(s: string)
    requires forall i :: 0 <= i < |s| ==> MatchAt(s[i..]).None?
    ensures Card(Totals(s))
         == ["Visa: 0", "MasterCard: 0", "American Express: 0", "Discover: 0", "Apple Pay: 0", "ACH (eCheck): 0"]
  {
    NoMatchNoPairs(s);
    EmptyCard(s);
  }

  lemma {:induction false} EmptyCard(s: string)
    requires FindAll(s) == []
    ensures Card(Totals(s))
         == ["Visa: 0", "MasterCard: 0", "American Express: 0", "Discover: 0", "Apple Pay: 0", "ACH (eCheck): 0"]
  {
    var card := Card(Totals(s));
    assert card[0] == "Visa: 0" && card[1] == "MasterCard: 0" && card[2] == "American Express: 0";
    assert card[3] == "Discover: 0" && card[4] == "Apple Pay: 0" && card[5] == "ACH (eCheck): 0";
  }

  /** A card line shows the count of the last pair carrying its key. */
  lemma {:induction false} CardShowsLastCount(s: string, line: int, j: int)
    requires 0 <= line < 6
    requires 0 <= j < |FindAll(s)| && FindAll(s)[j].0 == CardKeys[line]
    requires forall k :: j < k < |FindAll(s)| ==> FindAll(s)[k].0 != CardKeys[line]
    ensures Card(Totals(s))[line] == CardLabels[line] + ": " + FindAll(s)[j].1
  {
    ToMapLastWins(FindAll(s), j);
  }

  /** A card line whose key never occurs shows "0". */
  lemma {:induction false} CardDefaultsToZero(s: string, line: int)
    requires 0 <= line < 6
    requires forall k :: 0 <= k < |FindAll(s)| ==> FindAll(s)[k].0 != CardKeys[line]
    ensures Card(Totals(s))[line] == CardLabels[line] + ": 0"
  {
    ToMapAbsent(FindAll(s), CardKeys[line]);
  }

  /** Written pairs come back on the card: the summary of Join(ps) is the dictionary of ps. */
  lemma {:induction false} TotalsOfJoin(ps: seq<Pair>)
    requires forall i :: 0 <= i < |ps| ==> WellFormed(ps[i])
    ensures Totals(Join(ps)) == ToMap(ps)
  {
    FindAllJoin(ps);
  }

  /** A run of word characters followed by anything but ':' is skipped without a match. */
  lemma {:induction false} SkipUnlabelledWord(w: string, c: char, rest: string)
    requires forall i :: 0 <= i < |w| ==> InClass(Word, w[i])
    requires !InClass(Word, c) && c != ':'
    ensures FindAll(w + [c] + rest) == FindAll(rest)
  {
    if |w| == 0 {
      assert w + [c] + rest == [c] + rest;
      SkipNonWord(c, rest);
    } else {
      var s := w + [c] + rest;
      assert s[|w|] == c;
      RunCovers(s, Word, |w|);
      assert s[1..] == w[1..] + [c] + rest;
      SkipUnlabelledWord(w[1..], c, rest);
    }
  }

  /** A lone `label: count` text is read as that one pair. */
  lemma {:induction false} ReadLonePair(p: Pair, s: string)
    requires WellFormed(p) && s == p.0 + ": " + p.1
    ensures FindAll(s) == [p]
  {
    assert s[..|s|] == s;
    MatchAtComplete(s, p.0, p.1);
    assert s[|s|..] == [];
  }

  /**
   * `\w` does not match a space, so a two-word label such as "American Express: 5"
   * is read under its second word alone. The first word gets no entry, and the card
   * line keyed by "American" (the American Express line) shows "0".
   */
  lemma {:induction false} TwoWordLabel(first: string, key: string, count: string)
    requires NonEmptyRun(first, Word) && NonEmptyRun(key, Word) && NonEmptyRun(count, Digit)
    ensures FindAll(first + " " + key + ": " + count) == [(key, count)]
    ensures first != key ==> first !in Totals(first + " " + key + ": " + count)
    ensures first == CardKeys[2] != key ==>
      Card(Totals(first + " " + key + ": " + count))[2] == CardLabels[2] + ": 0"
  {
    var s := first + " " + key + ": " + count;
    var tail := key + ": " + count;
    assert s == first + [' '] + tail;
    SkipUnlabelledWord(first, ' ', tail);
    ReadLonePair((key, count), tail);
    if first != key {
      ToMapAbsent(FindAll(s), first);
      if first == CardKeys[2] {
        CardDefaultsToZero(s, 2);
      }
    }
  }
}
