/** Word statistics: tokens of a text, and its n most frequent words. */
module TextStats {
  type Text = string

  // ---------- tokens ----------

  /** Unicode as the program sees it: which characters make words, and their lower case. */
  datatype Alphabet = Alphabet(isWord: char -> bool, lower: char -> char)

  function RunLength(alphabet: Alphabet, text: Text): (n: nat)
    ensures n <= |text| && (forall i :: 0 <= i < n ==> alphabet.isWord(text[i]))
    ensures n < |text| ==> !alphabet.isWord(text[n])
  {
    if text != "" && alphabet.isWord(text[0]) then 1 + RunLength(alphabet, text[1..]) else 0
  }

  /** Maximal runs of word characters, left to right. */
  function Fields(alphabet: Alphabet, text: Text): seq<Text>
    decreases |text|
  {
    if text == "" then []
    else if !alphabet.isWord(text[0]) then Fields(alphabet, text[1..])
    else
      var n := RunLength(alphabet, text);
      [text[..n]] + Fields(alphabet, text[n..])
  }

  function Lower(alphabet: Alphabet, word: Text): (l: Text)
    ensures |l| == |word|
  {
    seq(|word|, i requires 0 <= i < |word| => alphabet.lower(word[i]))
  }

  function LowerAll(alphabet: Alphabet, words: seq<Text>): (ls: seq<Text>)
    ensures |ls| == |words|
  {
    seq(|words|, i requires 0 <= i < |words| => Lower(alphabet, words[i]))
  }

  function Tokens(alphabet: Alphabet, text: Text): seq<Text> {
    LowerAll(alphabet, Fields(alphabet, text))
  }

  method Tokenize(alphabet: Alphabet, text: Text) returns (out: seq<Text>)
    ensures out == Tokens(alphabet, text)
  {
    var fields := Fields(alphabet, text);
    out := [];
    for i := 0 to |fields|
      invariant out == LowerAll(alphabet, fields[..i])
    {
      out := out + [Lower(alphabet, fields[i])];
    }
    assert fields[..|fields|] == fields;
  }

  ghost predicate Word(alphabet: Alphabet, w: Text) {
    w != "" && forall i :: 0 <= i < |w| ==> alphabet.isWord(w[i])
  }

  /** Lower-casing twice is lower-casing once, and it keeps word characters word characters. */
  ghost predicate Regular(alphabet: Alphabet) {
    && (forall c :: alphabet.lower(alphabet.lower(c)) == alphabet.lower(c))
    && (forall c :: alphabet.isWord(c) ==> alphabet.isWord(alphabet.lower(c)))
  }

  lemma {:induction false} FieldsAreWords(alphabet: Alphabet, text: Text)
    ensures forall k :: 0 <= k < |Fields(alphabet, text)| ==> Word(alphabet, Fields(alphabet, text)[k])
    decreases |text|
  {
    if text != "" {
      if !alphabet.isWord(text[0]) {
        FieldsAreWords(alphabet, text[1..]);
      } else {
        FieldsAreWords(alphabet, text[RunLength(alphabet, text)..]);
      }
    }
  }

  /** Every token is a non-empty run of word characters in lower case. */
  lemma TokensAreLowerWords(alphabet: Alphabet, text: Text, k: nat)
    requires Regular(alphabet) && k < |Tokens(alphabet, text)|
    ensures Word(alphabet, Tokens(alphabet, text)[k])
            && Lower(alphabet, Tokens(alphabet, text)[k]) == Tokens(alphabet, text)[k]
  {
    FieldsAreWords(alphabet, text);
    assert Word(alphabet, Fields(alphabet, text)[k]);
  }

  /** The k-th field with its position: it starts at `from`, and is bounded by
      separators or the ends of the text. */
  ghost predicate MaximalAt(alphabet: Alphabet, text: Text, from: nat, field: Text) {
    && from + |field| <= |text| && text[from..from + |field|] == field && Word(alphabet, field)
    && (from > 0 ==> !alphabet.isWord(text[from - 1]))
    && (from + |field| < |text| ==> !alphabet.isWord(text[from + |field|]))
  }

  /** Fields fs stand at positions `from` of the text, from `start` on: maximal,
      disjoint, in order, with every word character in one of them. */
  ghost predicate Placed(alphabet: Alphabet, text: Text, start: nat, from: seq<nat>, fs: seq<Text>) {
    && |from| == |fs|
    && (forall k :: 0 <= k < |from| ==> start <= from[k] && MaximalAt(alphabet, text, from[k], fs[k]))
    && Apart(from, fs)
    && (forall i :: start <= i < |text| && alphabet.isWord(text[i]) ==> InField(from, fs, i))
  }

  ghost predicate Apart(from: seq<nat>, fs: seq<Text>)
    requires |from| == |fs|
  {
    forall k, m :: 0 <= k < m < |from| ==> from[k] + |fs[k]| < from[m]
  }

  ghost predicate InField(from: seq<nat>, fs: seq<Text>, i: nat)
    requires |from| == |fs|
  {
    exists k :: 0 <= k < |from| && from[k] <= i < from[k] + |fs[k]|
  }

  lemma GapAfter(alphabet: Alphabet, text: Text, start: nat, field: Text, next: nat, other: Text)
    requires MaximalAt(alphabet, text, start, field) && MaximalAt(alphabet, text, next, other)
             && start + |field| <= next
    ensures start + |field| < next
  {
  }

  lemma FirstOrLater(from: seq<nat>, fs: seq<Text>, start: nat, field: Text, i: nat)
    requires |from| == |fs| && (start <= i < start + |field| || InField(from, fs, i))
    ensures InField([start] + from, [field] + fs, i)
  {
    var from', fs' := [start] + from, [field] + fs;
    if start <= i < start + |field| {
      assert from'[0] <= i < from'[0] + |fs'[0]|;
    } else {
      var k :| 0 <= k < |from| && from[k] <= i < from[k] + |fs[k]|;
      assert from'[k + 1] <= i < from'[k + 1] + |fs'[k + 1]|;
    }
  }

  lemma ApartFirst(start: nat, field: Text, from: seq<nat>, fs: seq<Text>)
    requires |from| == |fs| && Apart(from, fs) && forall k :: 0 <= k < |from| ==> start + |field| < from[k]
    ensures Apart([start] + from, [field] + fs)
  {
  }

  lemma PlaceFirst(alphabet: Alphabet, text: Text, start: nat, field: Text, from: seq<nat>, fs: seq<Text>)
    requires MaximalAt(alphabet, text, start, field) && Placed(alphabet, text, start + |field|, from, fs)
    ensures Placed(alphabet, text, start, [start] + from, [field] + fs)
  {
    var from', fs' := [start] + from, [field] + fs;
    forall k | 0 <= k < |from| ensures start + |field| < from[k] {
      GapAfter(alphabet, text, start, field, from[k], fs[k]);
    }
    ApartFirst(start, field, from, fs);
    forall k | 0 <= k < |from'| ensures start <= from'[k] && MaximalAt(alphabet, text, from'[k], fs'[k]) {
      assert k > 0 ==> from'[k] == from[k - 1] && fs'[k] == fs[k - 1];
    }
    forall i | start <= i < |text| && alphabet.isWord(text[i]) ensures InField(from', fs', i) {
      FirstOrLater(from, fs, start, field, i);
    }
  }

  lemma PlaceAfterSeparator(alphabet: Alphabet, text: Text, start: nat, from: seq<nat>, fs: seq<Text>)
    requires start < |text| && !alphabet.isWord(text[start]) && Placed(alphabet, text, start + 1, from, fs)
    ensures Placed(alphabet, text, start, from, fs)
  {
    forall i | start <= i < |text| && alphabet.isWord(text[i]) ensures InField(from, fs, i) {
      assert i != start;
    }
  }

  lemma RunIsMaximal(alphabet: Alphabet, text: Text, start: nat, rest: Text)
    requires start < |text| && rest == text[start..] && alphabet.isWord(text[start])
    requires start > 0 ==> !alphabet.isWord(text[start - 1])
    ensures MaximalAt(alphabet, text, start, rest[..RunLength(alphabet, rest)])
  {
    var n := RunLength(alphabet, rest);
    assert rest[..n] == text[start..start + n];
    assert start + n < |text| ==> text[start + n] == rest[n];
  }

  /** The fields are the text's maximal runs of word characters. */
  lemma {:induction false} FieldsAreMaximal(alphabet: Alphabet, text: Text, start: nat) returns (from: seq<nat>)
    requires start <= |text|
    requires 0 < start < |text| && alphabet.isWord(text[start]) ==> !alphabet.isWord(text[start - 1])
    ensures Placed(alphabet, text, start, from, Fields(alphabet, text[start..]))
    decreases |text| - start
  {
    var rest := text[start..];
    if rest == "" {
      from := [];
    } else if !alphabet.isWord(text[start]) {
      assert rest[1..] == text[start + 1..];
      from := FieldsAreMaximal(alphabet, text, start + 1);
      PlaceAfterSeparator(alphabet, text, start, from, Fields(alphabet, rest[1..]));
    } else {
      var n := RunLength(alphabet, rest);
      RunIsMaximal(alphabet, text, start, rest);
      assert rest[n..] == text[start + n..];
      assert start + n < |text| ==> text[start + n] == rest[n];
      from := FieldsAreMaximal(alphabet, text, start + n);
      PlaceFirst(alphabet, text, start, rest[..n], from, Fields(alphabet, rest[n..]));
      from := [start] + from;
    }
  }

  /** Tokens in plain terms: in order, apart, at places `from` of the text where maximal
      runs of letters and digits begin, each character the lower case of the one at its
      place, and every letter or digit of the text in one of them. */
  lemma TokensExact(alphabet: Alphabet, text: Text, ts: seq<Text>) returns (from: seq<nat>)
    requires ts == Tokens(alphabet, text)
    ensures |from| == |ts|
    ensures forall k :: 0 <= k < |ts| ==> ts[k] != "" && from[k] + |ts[k]| <= |text|
    ensures forall k, i :: 0 <= k < |ts| && 0 <= i < |ts[k]| ==>
              alphabet.isWord(text[from[k] + i]) && ts[k][i] == alphabet.lower(text[from[k] + i])
    ensures forall k :: 0 <= k < |ts| && from[k] > 0 ==> !alphabet.isWord(text[from[k] - 1])
    ensures forall k :: 0 <= k < |ts| && from[k] + |ts[k]| < |text| ==> !alphabet.isWord(text[from[k] + |ts[k]|])
    ensures forall k, m :: 0 <= k < m < |ts| ==> from[k] + |ts[k]| < from[m]
    ensures forall i :: 0 <= i < |text| && alphabet.isWord(text[i]) ==>
              exists k :: 0 <= k < |ts| && from[k] <= i < from[k] + |ts[k]|
  {
    from := FieldsAreMaximal(alphabet, text, 0);
    assert text[0..] == text;
    TokensStand(alphabet, text, from, Fields(alphabet, text), ts);
    TokensCover(alphabet, text, from, Fields(alphabet, text), ts);
  }

  lemma TokensStand(alphabet: Alphabet, text: Text, from: seq<nat>, fs: seq<Text>, ts: seq<Text>)
    requires Placed(alphabet, text, 0, from, fs) && |ts| == |fs|
    requires forall k :: 0 <= k < |fs| ==> ts[k] == Lower(alphabet, fs[k])
    ensures forall k :: 0 <= k < |ts| ==> ts[k] != "" && from[k] + |ts[k]| <= |text|
    ensures forall k, i :: 0 <= k < |ts| && 0 <= i < |ts[k]| ==>
              alphabet.isWord(text[from[k] + i]) && ts[k][i] == alphabet.lower(text[from[k] + i])
    ensures forall k :: 0 <= k < |ts| && from[k] > 0 ==> !alphabet.isWord(text[from[k] - 1])
    ensures forall k :: 0 <= k < |ts| && from[k] + |ts[k]| < |text| ==> !alphabet.isWord(text[from[k] + |ts[k]|])
  {
    forall k | 0 <= k < |ts|
      ensures MaximalAt(alphabet, text, from[k], fs[k])
      ensures forall i :: 0 <= i < |fs[k]| ==>
                alphabet.isWord(text[from[k] + i]) && ts[k][i] == alphabet.lower(text[from[k] + i])
    {
      LowerInPlace(alphabet, text, from[k], fs[k]);
    }
  }

  lemma TokensCover(alphabet: Alphabet, text: Text, from: seq<nat>, fs: seq<Text>, ts: seq<Text>)
    requires Placed(alphabet, text, 0, from, fs) && |ts| == |fs| && forall k :: 0 <= k < |fs| ==> |ts[k]| == |fs[k]|
    ensures forall k, m :: 0 <= k < m < |ts| ==> from[k] + |ts[k]| < from[m]
    ensures forall i :: 0 <= i < |text| && alphabet.isWord(text[i]) ==>
              exists k :: 0 <= k < |ts| && from[k] <= i < from[k] + |ts[k]|
  {
    forall i | 0 <= i < |text| && alphabet.isWord(text[i])
      ensures exists k :: 0 <= k < |ts| && from[k] <= i < from[k] + |ts[k]|
    {
      assert InField(from, fs, i);
      var k :| 0 <= k < |from| && from[k] <= i < from[k] + |fs[k]|;
      assert |ts[k]| == |fs[k]|;
    }
  }

  lemma LowerInPlace(alphabet: Alphabet, text: Text, from: nat, field: Text)
    requires MaximalAt(alphabet, text, from, field)
    ensures forall i :: 0 <= i < |field| ==>
              alphabet.isWord(text[from + i]) && Lower(alphabet, field)[i] == alphabet.lower(text[from + i])
  {
    forall i | 0 <= i < |field| ensures text[from + i] == field[i] {
      assert text[from..from + |field|][i] == field[i];
    }
  }

  /** A run does not look past a separator. */
  lemma {:induction false} RunStopsAtSeparator(alphabet: Alphabet, a: Text, sep: char, b: Text)
    requires !alphabet.isWord(sep)
    ensures RunLength(alphabet, a + [sep] + b) == RunLength(alphabet, a)
  {
    var t := a + [sep] + b;
    if a != "" {
      assert t[1..] == a[1..] + [sep] + b && t[0] == a[0];
      RunStopsAtSeparator(alphabet, a[1..], sep, b);
    }
  }

  lemma {:induction false} FieldsConcat(alphabet: Alphabet, a: Text, sep: char, b: Text)
    requires !alphabet.isWord(sep)
    ensures Fields(alphabet, a + [sep] + b) == Fields(alphabet, a) + Fields(alphabet, b)
    decreases |a|
  {
    var t := a + [sep] + b;
    if a == "" {
      assert t[1..] == b && t[0] == sep;
    } else if !alphabet.isWord(a[0]) {
      assert t[1..] == a[1..] + [sep] + b && t[0] == a[0];
      FieldsConcat(alphabet, a[1..], sep, b);
    } else {
      var n := RunLength(alphabet, a);
      RunStopsAtSeparator(alphabet, a, sep, b);
      assert t[0] == a[0] && t[..n] == a[..n] && t[n..] == a[n..] + [sep] + b;
      FieldsConcat(alphabet, a[n..], sep, b);
    }
  }

  /** A separator keeps two texts' tokens apart. */
  lemma TokensConcat(alphabet: Alphabet, a: Text, sep: char, b: Text)
    requires !alphabet.isWord(sep)
    ensures Tokens(alphabet, a + [sep] + b) == Tokens(alphabet, a) + Tokens(alphabet, b)
  {
    FieldsConcat(alphabet, a, sep, b);
  }

  function Join(words: seq<Text>, sep: char): Text {
    if words == [] then "" else if |words| == 1 then words[0] else words[0] + [sep] + Join(words[1..], sep)
  }

  lemma {:induction false} WordIsOneField(alphabet: Alphabet, w: Text)
    requires Word(alphabet, w)
    ensures RunLength(alphabet, w) == |w| && Fields(alphabet, w) == [w]
  {
    if |w| == 1 {
      assert w[1..] == "";
    } else {
      WordIsOneField(alphabet, w[1..]);
    }
    assert w[..|w|] == w && w[|w|..] == "";
  }

  lemma {:induction false} FieldsOfJoin(alphabet: Alphabet, words: seq<Text>, sep: char)
    requires !alphabet.isWord(sep) && forall k :: 0 <= k < |words| ==> Word(alphabet, words[k])
    ensures Fields(alphabet, Join(words, sep)) == words
  {
    if words != [] {
      WordIsOneField(alphabet, words[0]);
      if |words| == 1 {
        assert words == [words[0]];
      } else {
        FieldsConcat(alphabet, words[0], sep, Join(words[1..], sep));
        FieldsOfJoin(alphabet, words[1..], sep);
        assert words == [words[0]] + words[1..];
      }
    }
  }

  /** Tokenizing the joined tokens gives the tokens back. */
  lemma Retokenize(alphabet: Alphabet, text: Text, sep: char)
    requires Regular(alphabet) && !alphabet.isWord(sep)
    ensures Tokens(alphabet, Join(Tokens(alphabet, text), sep)) == Tokens(alphabet, text)
  {
    var ts := Tokens(alphabet, text);
    forall k | 0 <= k < |ts| ensures Word(alphabet, ts[k]) && Lower(alphabet, ts[k]) == ts[k] {
      TokensAreLowerWords(alphabet, text, k);
    }
    FieldsOfJoin(alphabet, ts, sep);
  }

  // ---------- the n most frequent words ----------

  datatype Entry = Entry(word: Text, count: nat)

  datatype Summary = Summary(words: nat, unique: nat, top: seq<Entry>)

  /** Lexicographic order, a proper prefix first. */
  predicate LexLess(a: Text, b: Text) {
    b != "" && (a == "" || a[0] < b[0] || (a[0] == b[0] && LexLess(a[1..], b[1..])))
  }

  /** Higher count first, ties alphabetically. */
  predicate Before(x: Entry, y: Entry) {
    if x.count != y.count then x.count > y.count else LexLess(x.word, y.word)
  }

  /** Alphabetical order in plain terms: at the first place where they differ, the
      first word ends or has the smaller character. */
  lemma {:induction false} LexExact(a: Text, b: Text)
    ensures LexLess(a, b) <==> exists d :: 0 <= d <= |a| && d < |b| && a[..d] == b[..d] && (d == |a| || a[d] < b[d])
  {
    if a == "" && b != "" {
      assert a[..0] == b[..0];
    } else if a != "" && b != "" && a[0] == b[0] {
      LexExact(a[1..], b[1..]);
      if LexLess(a, b) {
        var a', b' := a[1..], b[1..];
        var d :| 0 <= d <= |a'| && d < |b'| && a'[..d] == b'[..d] && (d == |a'| || a'[d] < b'[d]);
        assert a[..d + 1] == [a[0]] + a[1..][..d] && b[..d + 1] == [b[0]] + b[1..][..d];
      }
      if d :| 0 <= d <= |a| && d < |b| && a[..d] == b[..d] && (d == |a| || a[d] < b[d]) {
        assert d > 0;
        assert a[1..][..d - 1] == a[..d][1..] && b[1..][..d - 1] == b[..d][1..];
      }
    } else if a != "" && b != "" {
      if a[0] < b[0] { assert a[..0] == b[..0]; }
      forall d | 0 < d <= |a| && d < |b| ensures a[..d] != b[..d] {
        assert a[..d][0] != b[..d][0];
      }
    }
  }

  /** The words agree up to d, where the first ends or has the smaller character. */
  ghost predicate PartAt(a: Text, b: Text, d: nat) {
    d <= |a| && d < |b| && a[..d] == b[..d] && (d == |a| || a[d] < b[d])
  }

  /** x ranks over the word w with its count: its count is higher, or equal and its word
      alphabetically first. */
  ghost predicate RanksOver(x: Entry, w: Text, count: nat) {
    x.count >= count && (x.count == count ==> exists d: nat :: PartAt(x.word, w, d))
  }

  lemma LexParts(a: Text, b: Text)
    requires LexLess(a, b)
    ensures exists d: nat :: PartAt(a, b, d)
  {
    LexExact(a, b);
    var d :| 0 <= d <= |a| && d < |b| && a[..d] == b[..d] && (d == |a| || a[d] < b[d]);
    assert PartAt(a, b, d);
  }

  lemma {:induction false} LexTransitive(a: Text, b: Text, c: Text)
    requires LexLess(a, b) && LexLess(b, c)
    ensures LexLess(a, c)
  {
    if a != "" && a[0] == b[0] && b[0] == c[0] {
      LexTransitive(a[1..], b[1..], c[1..]);
    }
  }

  lemma {:induction false} LexIrreflexive(a: Text)
    ensures !LexLess(a, a)
  {
    if a != "" {
      LexIrreflexive(a[1..]);
    }
  }

  lemma {:induction false} LexTotal(a: Text, b: Text)
    ensures LexLess(a, b) || LexLess(b, a) || a == b
  {
    if a != "" && b != "" && a[0] == b[0] {
      LexTotal(a[1..], b[1..]);
      assert a == [a[0]] + a[1..] && b == [b[0]] + b[1..];
    }
  }

  lemma BeforeTransitive(x: Entry, y: Entry, z: Entry)
    requires Before(x, y) && Before(y, z)
    ensures Before(x, z)
  {
    if x.count == y.count == z.count {
      LexTransitive(x.word, y.word, z.word);
    }
  }

  lemma BeforeIrreflexive(x: Entry)
    ensures !Before(x, x)
  {
    LexIrreflexive(x.word);
  }

  ghost predicate Ranked(entries: seq<Entry>) {
    forall i, j :: 0 <= i < j < |entries| ==> Before(entries[i], entries[j])
  }

  /** The counts of all words, ranked. */
  ghost predicate RankingOf(counts: map<Text, nat>, entries: seq<Entry>) {
    && Ranked(entries)
    && forall e :: e in entries <==> e.word in counts && counts[e.word] == e.count
  }

  ghost predicate CountsOf(words: seq<Text>, counts: map<Text, nat>) {
    forall w :: (w in counts <==> w in words) && (w in counts ==> counts[w] == multiset(words)[w])
  }

  lemma {:induction false} SameMembersSameRanking(a: seq<Entry>, b: seq<Entry>)
    requires Ranked(a) && Ranked(b) && forall e :: e in a <==> e in b
    ensures a == b
  {
    assert |a| > 0 ==> a[0] in b;
    assert |b| > 0 ==> b[0] in a;
    if a != [] {
      FirstIsFirst(a, b);
      assert a == [a[0]] + a[1..] && b == [b[0]] + b[1..];
      forall e ensures e in a[1..] <==> e in b[1..] {
        NotInTail(a, e);
        NotInTail(b, e);
      }
      SameMembersSameRanking(a[1..], b[1..]);
    }
  }

  lemma FirstIsFirst(a: seq<Entry>, b: seq<Entry>)
    requires Ranked(a) && Ranked(b) && a != [] && b != [] && a[0] in b && b[0] in a
    ensures a[0] == b[0]
  {
    if a[0] != b[0] {
      var i :| 0 <= i < |a| && a[i] == b[0];
      var j :| 0 <= j < |b| && b[j] == a[0];
      BeforeTransitive(a[0], b[0], a[0]);
      BeforeIrreflexive(a[0]);
    }
  }

  lemma NotInTail(a: seq<Entry>, e: Entry)
    requires Ranked(a) && a != []
    ensures e in a[1..] <==> e in a && e != a[0]
  {
    assert a == [a[0]] + a[1..];
    forall i | 1 <= i < |a| ensures a[i] != a[0] {
      BeforeIrreflexive(a[0]);
    }
  }

  /** Whatever order the map is walked in and however the sort proceeds, there is one ranking. */
  lemma RankingIsUnique(words: seq<Text>, c1: map<Text, nat>, r1: seq<Entry>, c2: map<Text, nat>, r2: seq<Entry>)
    requires CountsOf(words, c1) && RankingOf(c1, r1) && CountsOf(words, c2) && RankingOf(c2, r2)
    ensures c1 == c2 && r1 == r2
  {
    assert forall w :: w in c1 <==> w in c2;
    assert c1 == c2;
    SameMembersSameRanking(r1, r2);
  }

  /** Go's sort.Slice, as far as its contract goes: the same entries, in order. */
  method SortSlice(entries: seq<Entry>) returns (sorted: seq<Entry>)
    requires forall i, j :: 0 <= i < j < |entries| ==> entries[i].word != entries[j].word
    ensures multiset(sorted) == multiset(entries) && Ranked(sorted)
  {
    sorted := [];
    for i := 0 to |entries|
      invariant Ranked(sorted) && multiset(sorted) == multiset(entries[..i])
    {
      assert entries[..i + 1] == entries[..i] + [entries[i]];
      forall e | e in sorted ensures e.word != entries[i].word {
        assert e in multiset(entries[..i]);
      }
      sorted := Insert(sorted, entries[i]);
    }
    assert entries[..|entries|] == entries;
  }

  method Insert(ranked: seq<Entry>, e: Entry) returns (r: seq<Entry>)
    requires Ranked(ranked) && forall x :: x in ranked ==> x.word != e.word
    ensures Ranked(r) && multiset(r) == multiset(ranked) + multiset{e}
  {
    var k := 0;
    while k < |ranked| && Before(ranked[k], e)
      invariant 0 <= k <= |ranked|
      invariant forall i :: 0 <= i < k ==> Before(ranked[i], e)
    {
      k := k + 1;
    }
    r := ranked[..k] + [e] + ranked[k..];
    if k < |ranked| {
      assert ranked[k] in ranked;
      LexTotal(ranked[k].word, e.word);
    }
    InsertedIsRanked(ranked, e, k);
    assert ranked == ranked[..k] + ranked[k..];
  }

  lemma InsertedIsRanked(ranked: seq<Entry>, e: Entry, k: nat)
    requires Ranked(ranked) && k <= |ranked| && (forall i :: 0 <= i < k ==> Before(ranked[i], e))
    requires k < |ranked| ==> Before(e, ranked[k])
    ensures Ranked(ranked[..k] + [e] + ranked[k..])
  {
    var r := ranked[..k] + [e] + ranked[k..];
    forall j | k <= j < |ranked| ensures Before(e, ranked[j]) {
      if k < j { BeforeTransitive(e, ranked[k], ranked[j]); }
    }
    forall i, j | 0 <= i < j < |r| ensures Before(r[i], r[j]) {
      assert r[i] == if i < k then ranked[i] else if i == k then e else ranked[i - 1];
      assert r[j] == if j < k then ranked[j] else if j == k then e else ranked[j - 1];
    }
  }

  method CountWords(words: seq<Text>) returns (counts: map<Text, nat>)
    ensures CountsOf(words, counts)
  {
    counts := map[];
    for i := 0 to |words|
      invariant CountsOf(words[..i], counts)
    {
      var w := words[i];
      assert words[..i + 1] == words[..i] + [w];
      counts := counts[w := (if w in counts then counts[w] else 0) + 1];
    }
    assert words[..|words|] == words;
  }

  /** The map's entries, in an order the program does not choose. */
  method Entries(counts: map<Text, nat>) returns (entries: seq<Entry>)
    ensures |entries| == |counts|
    ensures forall i, j :: 0 <= i < j < |entries| ==> entries[i].word != entries[j].word
    ensures forall e :: e in entries <==> e.word in counts && counts[e.word] == e.count
  {
    entries := [];
    var todo := counts.Keys;
    while todo != {}
      invariant todo <= counts.Keys && |entries| + |todo| == |counts.Keys|
      invariant forall i, j :: 0 <= i < j < |entries| ==> entries[i].word != entries[j].word
      invariant forall e :: e in entries <==> e.word in counts && counts[e.word] == e.count && e.word !in todo
      decreases |todo|
    {
      var w :| w in todo;
      entries, todo := entries + [Entry(w, counts[w])], todo - {w};
    }
    assert |counts.Keys| == |counts|;
  }

  function Clamp(n: int, max: nat): (k: nat)
    ensures k <= max
  {
    if n < 0 then 0 else if n > max then max else n
  }

  /** Counts the words, and sorts the entries of the map. */
  method RankWords(words: seq<Text>) returns (counts: map<Text, nat>, sorted: seq<Entry>)
    ensures CountsOf(words, counts) && RankingOf(counts, sorted) && |sorted| == |counts|
  {
    counts := CountWords(words);
    var entries := Entries(counts);
    sorted := SortSlice(entries);
    assert |sorted| == |entries| by { assert |multiset(sorted)| == |multiset(entries)|; }
    assert forall e :: e in sorted <==> e in multiset(sorted);
    assert forall e :: e in entries <==> e in multiset(entries);
  }

  ghost predicate InTop(top: seq<Entry>, w: Text) {
    exists i :: 0 <= i < |top| && top[i].word == w
  }

  ghost predicate RankedBelow(top: seq<Entry>, w: Text, count: nat) {
    forall i :: 0 <= i < |top| ==> RanksOver(top[i], w, count)
  }

  /** The numbers of words and of different words, and the n first of the ranking, as
      many as there are. */
  method Summarize(words: seq<Text>, n: int)
    returns (s: Summary, ghost counts: map<Text, nat>, ghost ranking: seq<Entry>)
    ensures CountsOf(words, counts) && RankingOf(counts, ranking)
    ensures s.words == |words| && s.unique == |counts| == |ranking| == |set w | w in words|
    ensures |s.top| == (if n < 0 then 0 else if n <= s.unique then n else s.unique) && s.top == ranking[..|s.top|]
    ensures forall i :: 0 <= i < |s.top| ==>
              s.top[i].word in words && s.top[i].count == multiset(words)[s.top[i].word]
    ensures forall i, j :: 0 <= i < j < |s.top| ==> s.top[i].word != s.top[j].word && s.top[i].count >= s.top[j].count
    ensures forall i, j :: 0 <= i < j < |s.top| ==> RanksOver(s.top[i], s.top[j].word, s.top[j].count)
    ensures forall w :: w in words ==> InTop(s.top, w) || RankedBelow(s.top, w, multiset(words)[w])
  {
    var tally, sorted := RankWords(words);
    counts, ranking := tally, sorted;
    var k := n;
    if k < 0 {
      k := 0;
    }
    if k > |sorted| {
      k := |sorted|;
    }
    s := Summary(|words|, |tally|, sorted[..k]);
    UniqueWords(words, tally);
    TopEntries(words, tally, sorted, k);
    TopInOrder(words, tally, sorted, k);
    TopBeatsTheRest(words, tally, sorted, k);
  }

  /** The statistics of a text's tokens. */
  method Analyze(alphabet: Alphabet, text: Text, n: int)
    returns (s: Summary, ghost words: seq<Text>, ghost counts: map<Text, nat>, ghost ranking: seq<Entry>)
    ensures words == Tokens(alphabet, text)
    ensures CountsOf(words, counts) && RankingOf(counts, ranking)
    ensures s.words == |words| && s.unique == |counts| == |ranking| == |set w | w in words|
    ensures |s.top| == (if n < 0 then 0 else if n <= s.unique then n else s.unique) && s.top == ranking[..|s.top|]
    ensures forall i :: 0 <= i < |s.top| ==>
              s.top[i].word in words && s.top[i].count == multiset(words)[s.top[i].word]
    ensures forall i, j :: 0 <= i < j < |s.top| ==> s.top[i].word != s.top[j].word && s.top[i].count >= s.top[j].count
    ensures forall i, j :: 0 <= i < j < |s.top| ==> RanksOver(s.top[i], s.top[j].word, s.top[j].count)
    ensures forall w :: w in words ==> InTop(s.top, w) || RankedBelow(s.top, w, multiset(words)[w])
  {
    var tokens := Tokenize(alphabet, text);
    words := tokens;
    s, counts, ranking := Summarize(tokens, n);
  }

  lemma UniqueWords(words: seq<Text>, counts: map<Text, nat>)
    requires CountsOf(words, counts)
    ensures |counts| == |set w | w in words|
  {
    assert counts.Keys == set w | w in words;
  }

  lemma TopEntries(words: seq<Text>, counts: map<Text, nat>, ranking: seq<Entry>, k: nat)
    requires CountsOf(words, counts) && RankingOf(counts, ranking) && k <= |ranking|
    ensures var top := ranking[..k];
            forall i :: 0 <= i < k ==> top[i].word in words && top[i].count == multiset(words)[top[i].word]
  {
    assert forall i :: 0 <= i < k ==> ranking[i] in ranking;
  }

  lemma EntryRanksOver(x: Entry, y: Entry)
    requires Before(x, y)
    ensures RanksOver(x, y.word, y.count)
  {
    if x.count == y.count {
      LexParts(x.word, y.word);
    }
  }

  /** Higher counts first, and alphabetically among equals. */
  lemma TopInOrder(words: seq<Text>, counts: map<Text, nat>, ranking: seq<Entry>, k: nat)
    requires CountsOf(words, counts) && RankingOf(counts, ranking) && k <= |ranking|
    ensures var top := ranking[..k];
            forall i, j :: 0 <= i < j < k ==>
              top[i].word != top[j].word && RanksOver(top[i], top[j].word, top[j].count)
  {
    forall i, j | 0 <= i < j < k
      ensures ranking[i].word != ranking[j].word && RanksOver(ranking[i], ranking[j].word, ranking[j].count)
    {
      assert ranking[i] in ranking && ranking[j] in ranking;
      LexIrreflexive(ranking[i].word);
      EntryRanksOver(ranking[i], ranking[j]);
    }
  }

  /** A word left out ranks below all of the top. */
  lemma TopBeats(words: seq<Text>, counts: map<Text, nat>, ranking: seq<Entry>, k: nat, i: nat, w: Text)
    requires CountsOf(words, counts) && RankingOf(counts, ranking) && i < k <= |ranking|
    requires w in words && !InTop(ranking[..k], w)
    ensures RanksOver(ranking[i], w, multiset(words)[w])
  {
    var y := Entry(w, counts[w]);
    TopIsPrefix(counts, ranking, k, k);
    assert forall j :: 0 <= j < k ==> ranking[..k][j] == ranking[j];
    assert y in ranking;
    EntryRanksOver(ranking[i], y);
  }

  lemma TopBeatsTheRest(words: seq<Text>, counts: map<Text, nat>, ranking: seq<Entry>, k: nat)
    requires CountsOf(words, counts) && RankingOf(counts, ranking) && k <= |ranking|
    ensures forall w :: w in words ==> InTop(ranking[..k], w) || RankedBelow(ranking[..k], w, multiset(words)[w])
  {
    forall w | w in words && !InTop(ranking[..k], w) ensures RankedBelow(ranking[..k], w, multiset(words)[w]) {
      forall i | 0 <= i < k ensures RanksOver(ranking[i], w, multiset(words)[w]) {
        TopBeats(words, counts, ranking, k, i, w);
      }
    }
  }

  /** No word left out of the top ranks above one inside it, and the top for a smaller n is a prefix. */
  lemma TopIsPrefix(counts: map<Text, nat>, ranking: seq<Entry>, n: int, m: int)
    requires RankingOf(counts, ranking) && n <= m
    ensures ranking[..Clamp(n, |ranking|)] <= ranking[..Clamp(m, |ranking|)]
    ensures var top := ranking[..Clamp(n, |ranking|)];
            forall x, y :: x in top && y in ranking && y !in top ==> Before(x, y)
  {
    var k := Clamp(n, |ranking|);
    assert forall j :: 0 <= j < k ==> ranking[..k][j] == ranking[j];
    forall x, y | x in ranking[..k] && y in ranking && y !in ranking[..k] ensures Before(x, y) {
      var i :| 0 <= i < k && ranking[i] == x;
      var j :| 0 <= j < |ranking| && ranking[j] == y;
    }
  }

  function SumCounts(entries: seq<Entry>): nat {
    if entries == [] then 0 else entries[0].count + SumCounts(entries[1..])
  }

  function Without(words: seq<Text>, w: Text): seq<Text> {
    if words == [] then []
    else if words[0] == w then Without(words[1..], w) else [words[0]] + Without(words[1..], w)
  }

  lemma {:induction false} WithoutCounts(words: seq<Text>, w: Text)
    ensures multiset(Without(words, w)) == multiset(words)[w := 0]
    ensures |Without(words, w)| + multiset(words)[w] == |words|
  {
    if words != [] {
      assert words == [words[0]] + words[1..];
      WithoutCounts(words[1..], w);
    }
  }

  /** Counts that cover the words, each once, add up to the number of words. */
  lemma {:induction false} CountsAddUp(words: seq<Text>, entries: seq<Entry>)
    requires forall i, j :: 0 <= i < j < |entries| ==> entries[i].word != entries[j].word
    requires forall i :: 0 <= i < |entries| ==> entries[i].count == multiset(words)[entries[i].word]
    requires forall w :: w in words ==> exists i :: 0 <= i < |entries| && entries[i].word == w
    ensures SumCounts(entries) == |words|
    decreases |entries|
  {
    assert |words| > 0 ==> words[0] in words;
    if entries != [] {
      var w := entries[0].word;
      var rest := Without(words, w);
      WithoutCounts(words, w);
      forall v | v in rest ensures exists i :: 0 <= i < |entries[1..]| && entries[1..][i].word == v {
        assert v in multiset(rest) && v != w && v in multiset(words);
        assert v in words;
        var i :| 0 <= i < |entries| && entries[i].word == v;
        assert entries[1..][i - 1].word == v;
      }
      CountsAddUp(rest, entries[1..]);
    }
  }

  /** The counts of the whole ranking sum to the number of words. */
  lemma RankingAddsUp(words: seq<Text>, counts: map<Text, nat>, ranking: seq<Entry>)
    requires CountsOf(words, counts) && RankingOf(counts, ranking)
    ensures SumCounts(ranking) == |words|
  {
    forall i, j | 0 <= i < j < |ranking| ensures ranking[i].word != ranking[j].word {
      assert ranking[i] in ranking && ranking[j] in ranking && Before(ranking[i], ranking[j]);
      LexIrreflexive(ranking[i].word);
    }
    forall i | 0 <= i < |ranking| ensures ranking[i].count == multiset(words)[ranking[i].word] {
      assert ranking[i] in ranking;
    }
    forall w | w in words ensures exists i :: 0 <= i < |ranking| && ranking[i].word == w {
      assert Entry(w, counts[w]) in ranking;
    }
    CountsAddUp(words, ranking);
  }
}
