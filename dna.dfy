/** The reverse complement of a DNA index sequence (`reverse_tr` in
    02-at2/utils.py): the string read backwards, with every base replaced by
    its partner under A<->T, C<->G. Characters outside the table pass
    through unchanged, as Python's `str.translate` leaves them. */
module Dna {

  /** The translation table: A->T, G->C, C->G, T->A, anything else unchanged. */
  function Complement(c: char): char
  {
    if c == 'A' then 'T'
    else if c == 'G' then 'C'
    else if c == 'C' then 'G'
    else if c == 'T' then 'A'
    else c
  }

  /** One of the four bases the table maps. */
  predicate IsBase(c: char)
  {
    c == 'A' || c == 'C' || c == 'G' || c == 'T'
  }

  /** A string made only of the four bases. */
  predicate IsDna(s: string)
  {
    forall i :: 0 <= i < |s| ==> IsBase(s[i])
  }

  /** `s[::-1]`. */
  function Reverse(s: string): (r: string)
    ensures |r| == |s|
  {
    if s == [] then [] else Reverse(s[1..]) + [s[0]]
  }

  /** `s.translate(table)` with the table of Complement. */
  function Translate(s: string): (r: string)
    ensures |r| == |s|
  {
    if s == [] then [] else [Complement(s[0])] + Translate(s[1..])
  }

  /** `reverse_tr(x)`: reverse first, then translate. */
  function ReverseTr(x: string): (r: string)
    ensures |r| == |x|
    ensures x == [] ==> r == []
  {
    Translate(Reverse(x))
  }

  /** The table is its own inverse, and it maps bases to bases and fixes every other character. */
  lemma ComplementInvolutive(c: char)
    ensures Complement(Complement(c)) == c
    ensures IsBase(Complement(c)) <==> IsBase(c)
    ensures !IsBase(c) ==> Complement(c) == c
  {
  }

  lemma {:induction false} ReverseAt(s: string, i: nat)
    requires i < |s|
    ensures Reverse(s)[i] == s[|s| - 1 - i]
  {
    if i < |s| - 1 {
      ReverseAt(s[1..], i);
    }
  }

  lemma {:induction false} TranslateAt(s: string, i: nat)
    requires i < |s|
    ensures Translate(s)[i] == Complement(s[i])
  {
    if i > 0 {
      TranslateAt(s[1..], i - 1);
    }
  }

  /** Position i of the result is the complement of position |x|-1-i of the input. */
  lemma ReverseTrAt(x: string, i: nat)
    requires i < |x|
    ensures ReverseTr(x)[i] == Complement(x[|x| - 1 - i])
  {
    TranslateAt(Reverse(x), i);
    ReverseAt(x, i);
  }

  /** Applying `reverse_tr` twice gives back any string whatever, bases or not. */
  lemma ReverseTrInvolution(x: string)
    ensures ReverseTr(ReverseTr(x)) == x
  {
    var y := ReverseTr(x);
    forall i | 0 <= i < |x|
      ensures ReverseTr(y)[i] == x[i]
    {
      ReverseTrAt(y, i);
      ReverseTrAt(x, |x| - 1 - i);
      ComplementInvolutive(x[i]);
    }
  }

  /** A string of bases maps to a string of bases. */
  lemma ReverseTrKeepsDna(x: string)
    requires IsDna(x)
    ensures IsDna(ReverseTr(x))
  {
    forall i | 0 <= i < |x|
      ensures IsBase(ReverseTr(x)[i])
    {
      ReverseTrAt(x, i);
      ComplementInvolutive(x[|x| - 1 - i]);
    }
  }

  /** A character outside the table occurs in the result exactly when it occurs in the input. */
  lemma ReverseTrKeepsOthers(x: string, c: char)
    requires !IsBase(c)
    ensures c in ReverseTr(x) <==> c in x
  {
    var y := ReverseTr(x);
    if c in x {
      var j :| 0 <= j < |x| && x[j] == c;
      ReverseTrAt(x, |x| - 1 - j);
      assert y[|x| - 1 - j] == c;
    }
    if c in y {
      var i :| 0 <= i < |y| && y[i] == c;
      ReverseTrAt(x, i);
      ComplementInvolutive(x[|x| - 1 - i]);
      assert x[|x| - 1 - i] == c;
    }
  }

  /** The read-1 adapter of the sheet header (02-at2/utils.py:21), written as seven pieces
      so that its reverse complement can be worked out piece by piece. */
  const Adapter: string := "AGATC" + ("GGAAG" + ("AGCAC" + ("ACGTC" + ("TGAAC" + ("TCCAG" + "TCA")))))

  /** The expected reverse complement of Adapter, in the matching pieces. */
  const AdapterRc: string := "TGA" + "CTGGA" + "GTTCA" + "GACGT" + "GTGCT" + "CTTCC" + "GATCT"

  /** The reverse complement of a concatenation is that of the second part followed by that of the first. */
  lemma ReverseTrAppend(a: string, b: string)
    ensures ReverseTr(a + b) == ReverseTr(b) + ReverseTr(a)
  {
    var x, r := a + b, ReverseTr(b) + ReverseTr(a);
    forall i | 0 <= i < |x|
      ensures ReverseTr(x)[i] == r[i]
    {
      ReverseTrAt(x, i);
      if i < |b| {
        ReverseTrAt(b, i);
      } else {
        ReverseTrAt(a, i - |b|);
      }
    }
  }

  /** The reverse complement of five characters, written out. */
  lemma ReverseTr5(a: char, b: char, c: char, d: char, e: char)
    ensures ReverseTr([a, b, c, d, e]) == [Complement(e), Complement(d), Complement(c), Complement(b), Complement(a)]
  {
    var x := [a, b, c, d, e];
    forall i | 0 <= i < 5
      ensures ReverseTr(x)[i] == [Complement(e), Complement(d), Complement(c), Complement(b), Complement(a)][i]
    {
      ReverseTrAt(x, i);
    }
  }

  /** The reverse complement of seven consecutive pieces is the pieces' reverse complements
      in the opposite order. */
  lemma {:induction false} ReverseTrPieces(p1: string, p2: string, p3: string, p4: string, p5: string, p6: string, p7: string,
                                           r1: string, r2: string, r3: string, r4: string, r5: string, r6: string, r7: string)
    requires ReverseTr(p1) == r1 && ReverseTr(p2) == r2 && ReverseTr(p3) == r3 && ReverseTr(p4) == r4
    requires ReverseTr(p5) == r5 && ReverseTr(p6) == r6 && ReverseTr(p7) == r7
    ensures ReverseTr(p1 + (p2 + (p3 + (p4 + (p5 + (p6 + p7))))))
         == r7 + r6 + r5 + r4 + r3 + r2 + r1
  {
    var t6 := p6 + p7;
    ReverseTrAppend(p6, p7);
    var t5 := p5 + t6;
    ReverseTrAppend(p5, t6);
    var t4 := p4 + t5;
    ReverseTrAppend(p4, t5);
    var t3 := p3 + t4;
    ReverseTrAppend(p3, t4);
    var t2 := p2 + t3;
    ReverseTrAppend(p2, t3);
    ReverseTrAppend(p1, t2);
  }

  /** The reverse complement of the read-1 adapter is AdapterRc, worked out five bases at a time. */
  lemma AdapterReverseTr()
    ensures ReverseTr(Adapter) == AdapterRc
  {
    ReverseTr5('A', 'G', 'A', 'T', 'C');
    ReverseTr5('G', 'G', 'A', 'A', 'G');
    ReverseTr5('A', 'G', 'C', 'A', 'C');
    ReverseTr5('A', 'C', 'G', 'T', 'C');
    ReverseTr5('T', 'G', 'A', 'A', 'C');
    ReverseTr5('T', 'C', 'C', 'A', 'G');
    assert ReverseTr("TCA") == "TGA" by { ReverseTrAt("TCA", 0); ReverseTrAt("TCA", 1); ReverseTrAt("TCA", 2); }
    ReverseTrPieces("AGATC", "GGAAG", "AGCAC", "ACGTC", "TGAAC", "TCCAG", "TCA",
                    "GATCT", "CTTCC", "GTGCT", "GACGT", "GTTCA", "CTGGA", "TGA");
  }

  /** The two adapter constants spelled out: the header's adapter text, and its expected
      reverse complement `TGACTGGAGTTCAGACGTGTGCTCTTCCGATCT`. */
  lemma AdapterText()
    ensures Adapter == "AGATCGGAAGAGCACACGTCTGAACTCCAGTCA"
    ensures AdapterRc == "TGACTGGAGTTCAGACGTGTGCTCTTCCGATCT"
  {
  }
}
