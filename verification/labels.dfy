/** The fixed Fashion-MNIST label table and the string split the display
    uses to drop each label's "<digit>: " prefix. */
module Labels {
  import opened Optional

  /** Display label of each class, indexed by the classifier's output position. */
  const LABELS: seq<string> := [
    "0: T-shirt/top", "1: Trouser", "2: Pullover", "3: Dress", "4: Coat",
    "5: Sandal", "6: Shirt", "7: Sneaker", "8: Bag", "9: Ankle boot"
  ]

  /** The category names alone, as the probability list shows them. */
  const NAMES: seq<string> := [
    "T-shirt/top", "Trouser", "Pullover", "Dress", "Coat",
    "Sandal", "Shirt", "Sneaker", "Bag", "Ankle boot"
  ]

  /** The separator between a label's index prefix and its name. */
  const SEP: string := ": "

  /** The decimal digit naming class i. */
  function DigitChar(i: nat): char
    requires i < 10
  {
    ('0' as int + i) as char
  }

  /** sep occurs in s starting at position i. */
  predicate OccursAt(s: string, sep: string, i: int) {
    0 <= i && i + |sep| <= |s| && s[i..i + |sep|] == sep
  }

  /** Position of the first occurrence of sep in s at or after from, or -1. */
  function FindFrom(s: string, sep: string, from: nat): (r: int)
    requires from <= |s|
    ensures r == -1 || from <= r <= |s| - |sep|
    ensures r == -1 <==> forall i :: from <= i <= |s| ==> !OccursAt(s, sep, i)
    ensures r != -1 ==> OccursAt(s, sep, r) && forall i :: from <= i < r ==> !OccursAt(s, sep, i)
    decreases |s| - from
  {
    if OccursAt(s, sep, from) then from
    else if from == |s| then -1
    else FindFrom(s, sep, from + 1)
  }

  /** String.prototype.split with a non-empty separator: the pieces of s
      between successive leftmost non-overlapping occurrences of sep. */
  function Split(s: string, sep: string): (parts: seq<string>)
    requires |sep| > 0
    ensures |parts| >= 1
    decreases |s|
  {
    var i := FindFrom(s, sep, 0);
    if i == -1 then [s] else [s[..i]] + Split(s[i + |sep|..], sep)
  }

  /** Array.prototype.join: the pieces with sep between neighbours. */
  function Join(parts: seq<string>, sep: string): string
    requires |parts| >= 1
  {
    if |parts| == 1 then parts[0] else parts[0] + sep + Join(parts[1..], sep)
  }

  /** Splitting loses nothing: joining the pieces back gives the string. */
  /** A string is its part before an occurrence of sep, sep, and the rest. */
  lemma Reassemble(s: string, sep: string, i: int)
    requires OccursAt(s, sep, i)
    ensures s == s[..i] + sep + s[i + |sep|..]
  {
    assert s == s[..i] + s[i..i + |sep|] + s[i + |sep|..];
  }

  lemma {:induction false} JoinSplit(s: string, sep: string)
    requires |sep| > 0
    ensures Join(Split(s, sep), sep) == s
    decreases |s|
  {
    var i := FindFrom(s, sep, 0);
    if i != -1 {
      var rest := s[i + |sep|..];
      assert Split(s, sep) == [s[..i]] + Split(rest, sep);
      JoinSplit(rest, sep);
      Reassemble(s, sep, i);
    }
  }

  /** No piece of a split contains the separator. */
  lemma {:induction false} SplitPiecesFree(s: string, sep: string)
    requires |sep| > 0
    ensures forall j, i :: 0 <= j < |Split(s, sep)| && 0 <= i ==>
      !OccursAt(Split(s, sep)[j], sep, i)
    decreases |s|
  {
    var parts := Split(s, sep);
    var i := FindFrom(s, sep, 0);
    if i != -1 {
      var rest := s[i + |sep|..];
      SplitPiecesFree(rest, sep);
      assert parts == [s[..i]] + Split(rest, sep);
      forall m | 0 <= m ensures !OccursAt(s[..i], sep, m) {
        if OccursAt(s[..i], sep, m) {
          assert s[..i][m..m + |sep|] == s[m..m + |sep|];
          assert OccursAt(s, sep, m);
          assert false;
        }
      }
    }
  }

  /** A string that starts with sep's first character nowhere has no
      occurrence of sep, so it splits into itself alone. */
  lemma SplitWithoutSep(q: string, sep: string)
    requires |sep| > 0 && sep[0] !in q
    ensures Split(q, sep) == [q]
  {
    assert FindFrom(q, sep, 0) == -1;
  }

  /** A prefix that cannot start an occurrence, then the separator, then a
      separator-free tail, splits into exactly the prefix and the tail. */
  lemma SplitPrefixed(p: string, sep: string, q: string)
    requires |sep| > 0 && sep[0] !in p && sep[0] !in q
    ensures Split(p + sep + q, sep) == [p, q]
  {
    var s := p + sep + q;
    forall i | 0 <= i < |p| ensures !OccursAt(s, sep, i) {
      assert s[i] == p[i];
    }
    assert OccursAt(s, sep, |p|) by {
      assert s[|p|..|p| + |sep|] == sep;
    }
    assert FindFrom(s, sep, 0) == |p|;
    assert s[..|p|] == p;
    assert s[|p| + |sep|..] == q;
    SplitWithoutSep(q, sep);
  }

  /** The name shown for a label: the second piece of its split on ": ",
      or None where the browser would render `undefined`, which happens
      exactly when the label holds no ": " at all. */
  function DisplayName(entry: string): (r: Option<string>)
    ensures r.Some? <==> |Split(entry, SEP)| >= 2
    ensures r.Some? <==> exists i :: 0 <= i <= |entry| && OccursAt(entry, SEP, i)
    ensures r.Some? ==> forall i :: 0 <= i ==> !OccursAt(r.value, SEP, i)
  {
    SplitPiecesFree(entry, SEP);
    var parts := Split(entry, SEP);
    if |parts| >= 2 then Some(parts[1]) else None
  }

  /** The table has ten entries; entry i is its own index digit, the
      separator, and the i-th category name, which holds no colon. */
  lemma LabelsWellFormed()
    ensures |LABELS| == 10 && |NAMES| == 10
    ensures forall i :: 0 <= i < 10 ==> LABELS[i] == [DigitChar(i)] + SEP + NAMES[i]
    ensures forall i :: 0 <= i < 10 ==> ':' !in NAMES[i]
  {
  }

  /** Splitting label i on ": " yields its index digit and its name, so the
      displayed name is NAMES[i] and the prefix matches the position. */
  lemma LabelSplit(i: nat)
    requires i < |LABELS|
    ensures Split(LABELS[i], SEP) == [[DigitChar(i)], NAMES[i]]
    ensures DisplayName(LABELS[i]) == Some(NAMES[i])
  {
    LabelsWellFormed();
    SplitPrefixed([DigitChar(i)], SEP, NAMES[i]);
  }

  /** Every entry of the table displays as its category name. */
  lemma AllDisplayNames()
    ensures forall i :: 0 <= i < |LABELS| ==> DisplayName(LABELS[i]) == Some(NAMES[i])
  {
    forall i | 0 <= i < |LABELS| ensures DisplayName(LABELS[i]) == Some(NAMES[i]) {
      LabelSplit(i);
    }
  }
}
