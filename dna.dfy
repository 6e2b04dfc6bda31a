/** The DNA string utilities of the Python exercise: k-mer counting, the DNA
    alphabet check, the validated `Sequence`, decoding of one open reading
    frame and the scan for all of them. The codon table is a parameter: a
    total map from three-letter codons to an amino-acid letter or STOP. A
    Python exception is an `Abort`. */
module Dna {
  import opened Wrappers

  /** `sequence[lo:hi]` with Python's rules: negative bounds count from the
      end, and bounds are clamped to the string. */
  function PySlice(s: string, lo: int, hi: int): (r: string)
    ensures |r| <= |s|
    ensures 0 <= lo <= hi <= |s| ==> r == s[lo..hi]
    ensures 0 <= lo <= |s| && hi == |s| ==> r == s[lo..]
  {
    var l := Clamp(if lo < 0 then lo + |s| else lo, |s|);
    var h := Clamp(if hi < 0 then hi + |s| else hi, |s|);
    if h <= l then "" else s[l..h]
  }

  function Clamp(x: int, n: nat): (r: nat)
    ensures r <= n && (0 <= x <= n ==> r == x)
  {
    if x < 0 then 0 else if x > n then n else x
  }

  // ---------------------------------------------------------------------------
  // `count_kmers`

  /** The first `n` windows of length `k`, in order. */
  function Windows(s: string, k: nat, n: nat): (ws: seq<string>)
    requires n > 0 ==> n - 1 + k <= |s|
    ensures |ws| == n
    ensures forall i :: 0 <= i < n ==> ws[i] == s[i..i + k]
  {
    if n == 0 then [] else Windows(s, k, n - 1) + [s[n - 1..n - 1 + k]]
  }

  /** Every window of length `k` of `s`, left to right. */
  function KmerWindows(s: string, k: nat): (ws: seq<string>)
    ensures |ws| == if k <= |s| then |s| - k + 1 else 0
    ensures forall i :: 0 <= i < |ws| ==> |ws[i]| == k && ws[i] == s[i..i + k]
  {
    if k <= |s| then Windows(s, k, |s| - k + 1) else []
  }

  /** The `defaultdict(int)` after `kmers[w] += 1` for each `w` of `ws` in turn. */
  function Tally(ws: seq<string>): map<string, nat> {
    if |ws| == 0 then map[]
    else
      var m := Tally(ws[..|ws| - 1]);
      var w := ws[|ws| - 1];
      m[w := (if w in m then m[w] else 0) + 1]
  }

  /** The dictionary holds exactly the words of `ws`, each with its number of
      occurrences: it is the multiset of `ws`. */
  lemma {:induction false} TallyIsMultiset(ws: seq<string>)
    ensures forall w :: w in Tally(ws) <==> w in multiset(ws)
    ensures forall w :: w in Tally(ws) ==> Tally(ws)[w] == multiset(ws)[w]
  {
    if |ws| > 0 {
      var init := ws[..|ws| - 1];
      TallyIsMultiset(init);
      assert ws == init + [ws[|ws| - 1]];
    }
  }

  lemma TallyStep(s: string, k: nat, i: nat)
    requires i + k <= |s|
    ensures var m := Tally(Windows(s, k, i)); var w := s[i..i + k];
      Tally(Windows(s, k, i + 1)) == m[w := (if w in m then m[w] else 0) + 1]
  {
    assert Windows(s, k, i + 1)[..i] == Windows(s, k, i);
  }

  /** `count_kmers`, with the default `k = 3`. */
  method CountKmers(sequence: string, k: int := 3) returns (r: Run<map<string, nat>>)
    ensures k < 0 <==> r.Abort?
    ensures k >= 0 ==> r == Done(Tally(KmerWindows(sequence, k)))
  {
    var kmers: map<string, nat> := map[];
    var i := 0;
    var n := |sequence| - k + 1;
    while i < n
      invariant 0 <= i && (i <= n || i == 0)
      invariant k < 0 ==> i == 0
      invariant k >= 0 ==> kmers == Tally(Windows(sequence, k, i))
    {
      var kmer := PySlice(sequence, i, i + k);
      KmerSlice(sequence, i, k, kmers);
      if |kmer| != k {
        return Abort("AssertionError");
      }
      kmers := kmers[kmer := (if kmer in kmers then kmers[kmer] else 0) + 1];
      i := i + 1;
    }
    assert k >= 0 ==> i == if k <= |sequence| then n else 0;
    r := Done(kmers);
  }

  /** One pass of the loop: inside its range the slice is the window at `i`,
      so counting it gives the tally of one more window; for a negative `k`
      the slice cannot have length `k`. */
  lemma KmerSlice(s: string, i: nat, k: int, kmers: map<string, nat>)
    requires i < |s| - k + 1
    requires k >= 0 ==> kmers == Tally(Windows(s, k, i))
    ensures |PySlice(s, i, i + k)| == k <==> k >= 0
    ensures k >= 0 ==> var w := PySlice(s, i, i + k);
      kmers[w := (if w in kmers then kmers[w] else 0) + 1] == Tally(Windows(s, k, i + 1))
  {
    if k >= 0 {
      TallyStep(s, k, i);
    }
  }

  /** Every key has length `k`; the counts add up to `len(sequence) - k + 1`
      (the size of the multiset the dictionary represents), or nothing when
      `k` exceeds the length. */
  lemma KmerCounts(sequence: string, k: nat)
    ensures forall w :: w in Tally(KmerWindows(sequence, k)) ==> |w| == k
    ensures forall w :: w in Tally(KmerWindows(sequence, k)) ==>
      Tally(KmerWindows(sequence, k))[w] == multiset(KmerWindows(sequence, k))[w]
    ensures |multiset(KmerWindows(sequence, k))| == if k <= |sequence| then |sequence| - k + 1 else 0
    ensures k > |sequence| ==> Tally(KmerWindows(sequence, k)) == map[]
  {
    var ws := KmerWindows(sequence, k);
    TallyIsMultiset(ws);
    forall w | w in Tally(ws) ensures |w| == k {
      assert w in multiset(ws);
      var i :| 0 <= i < |ws| && ws[i] == w;
    }
  }

  /** `n` copies of the word `w`. */
  function Copies(w: string, n: nat): (r: seq<string>)
    ensures |r| == n && forall i :: 0 <= i < n ==> r[i] == w
  {
    if n == 0 then [] else Copies(w, n - 1) + [w]
  }

  /** Counting a run of `n` copies of a new word enters it with count `n`. */
  lemma {:induction false} TallyRun(ws: seq<string>, w: string, n: nat)
    requires w !in Tally(ws) && n > 0
    ensures Tally(ws + Copies(w, n)) == Tally(ws)[w := n]
  {
    var t := ws + Copies(w, n);
    assert t[..|t| - 1] == ws + Copies(w, n - 1);
    if n > 1 {
      TallyRun(ws, w, n - 1);
    } else {
      assert ws + Copies(w, 0) == ws;
    }
  }

  /** The test sequence and its windows of length 1 and 2, as runs. */
  lemma OneMerWindows(s: string)
    requires s == "AAAATTTTGGGGCCCC"
    ensures KmerWindows(s, 1) == Copies("A", 4) + Copies("T", 4) + Copies("G", 4) + Copies("C", 4)
  {
    var ws := KmerWindows(s, 1);
    var expected := Copies("A", 4) + Copies("T", 4) + Copies("G", 4) + Copies("C", 4);
    forall i | 0 <= i < 16 ensures ws[i] == expected[i] {
      assert ws[i] == s[i..i + 1] == [s[i]];
    }
  }

  /** `test_one_mer`: four each of A, T, G and C. */
  lemma OneMers(s: string)
    requires s == "AAAATTTTGGGGCCCC"
    ensures Tally(KmerWindows(s, 1)) == map["A" := 4, "T" := 4, "G" := 4, "C" := 4]
  {
    OneMerWindows(s);
    var a, t, g := Copies("A", 4), Copies("T", 4), Copies("G", 4);
    TallyRun([], "A", 4);
    TallyRun([] + a, "T", 4);
    TallyRun([] + a + t, "G", 4);
    TallyRun([] + a + t + g, "C", 4);
    assert [] + a == a;
  }

  lemma TwoMerWindows(s: string)
    requires s == "AAAATTTTGGGGCCCC"
    ensures KmerWindows(s, 2) == Copies("AA", 3) + Copies("AT", 1) + Copies("TT", 3) + Copies("TG", 1) + Copies("GG", 3) + Copies("GC", 1) + Copies("CC", 3)
  {
    var ws := KmerWindows(s, 2);
    var expected := Copies("AA", 3) + Copies("AT", 1) + Copies("TT", 3) + Copies("TG", 1) + Copies("GG", 3) + Copies("GC", 1) + Copies("CC", 3);
    forall i | 0 <= i < 15 ensures ws[i] == expected[i] {
      assert ws[i] == s[i..i + 2] == [s[i], s[i + 1]];
    }
  }

  /** `test_two_mer`: three each of AA, TT, GG and CC, one each of AT, TG and GC. */
  lemma TwoMers(s: string)
    requires s == "AAAATTTTGGGGCCCC"
    ensures Tally(KmerWindows(s, 2)) == map["AA" := 3, "AT" := 1, "TT" := 3, "TG" := 1, "GG" := 3, "GC" := 1, "CC" := 3]
  {
    TwoMerWindows(s);
    var aa, at, tt, tg, gg, gc := Copies("AA", 3), Copies("AT", 1), Copies("TT", 3), Copies("TG", 1), Copies("GG", 3), Copies("GC", 1);
    TwoMersFront();
    var front := aa + at + tt + tg;
    TallyRun(front, "GG", 3);
    TallyRun(front + gg, "GC", 1);
    TallyRun(front + gg + gc, "CC", 3);
  }

  lemma TwoMersFront()
    ensures Tally(Copies("AA", 3) + Copies("AT", 1) + Copies("TT", 3) + Copies("TG", 1)) == map["AA" := 3, "AT" := 1, "TT" := 3, "TG" := 1]
  {
    var aa, at, tt := Copies("AA", 3), Copies("AT", 1), Copies("TT", 3);
    TallyRun([], "AA", 3);
    assert [] + aa == aa;
    TallyRun(aa, "AT", 1);
    TallyRun(aa + at, "TT", 3);
    TallyRun(aa + at + tt, "TG", 1);
  }

  // ---------------------------------------------------------------------------
  // `assert_valid_dna` and `Sequence`

  predicate IsValidDna(s: string) {
    forall i :: 0 <= i < |s| ==> s[i] in "ATGC"
  }

  /** `ValueError` exactly when some character is not one of A, T, G, C. */
  function AssertValidDna(s: string): (r: Result<(), string>)
    ensures r.Ok? <==> forall i :: 0 <= i < |s| ==> s[i] == 'A' || s[i] == 'T' || s[i] == 'G' || s[i] == 'C'
    ensures r.Err? ==> exists i :: 0 <= i < |s| && s[i] !in "ATGC"
  {
    if IsValidDna(s) then Ok(()) else Err("Sequence contains invalid characters")
  }

  lemma ValidationExamples()
    ensures AssertValidDna("ATGC").Ok?
    ensures AssertValidDna("_").Err? && AssertValidDna(" ").Err?
    ensures AssertValidDna("").Ok?
  {
    assert "_"[0] == '_';
    assert " "[0] == ' ';
  }

  /** Validity is per character: a concatenation is valid iff both parts are. */
  lemma ValidConcat(a: string, b: string)
    ensures IsValidDna(a + b) <==> IsValidDna(a) && IsValidDna(b)
  {
    if IsValidDna(a + b) {
      forall i | 0 <= i < |b| ensures b[i] in "ATGC" {
        assert (a + b)[|a| + i] == b[i];
      }
      forall i | 0 <= i < |a| ensures a[i] in "ATGC" {
        assert (a + b)[i] == a[i];
      }
    }
  }

  /** A `Sequence` holds a validated DNA string; its length and text are the string's. */
  type Sequence = s: string | IsValidDna(s) witness ""

  /** `Sequence.__init__`. */
  function NewSequence(s: string): (r: Result<Sequence, string>)
    ensures r.Ok? <==> AssertValidDna(s).Ok?
    ensures r.Ok? ==> r.value == s
  {
    match AssertValidDna(s)
    case Ok(_) => Ok(s)
    case Err(e) => Err(e)
  }

  /** `Sequence.kmers`: `count_kmers` on the held string, with the same
      default `k = 3`. */
  method Kmers(sequence: Sequence, k: int := 3) returns (r: Run<map<string, nat>>)
    ensures k < 0 <==> r.Abort?
    ensures k >= 0 ==> r == Done(Tally(KmerWindows(sequence, k)))
  {
    r := CountKmers(sequence, k);
  }

  /** With the default `k`, the counts are those of the three-mers. */
  method DefaultKmers(sequence: Sequence) returns (r: Run<map<string, nat>>)
    ensures r.Done? && forall w :: w in r.value ==> |w| == 3
    ensures r == Done(Tally(KmerWindows(sequence, 3)))
  {
    r := Kmers(sequence);
    KmerCounts(sequence, 3);
  }

  // ---------------------------------------------------------------------------
  // `decode_orf`

  datatype Amino = Acid(letter: char) | Stop

  datatype OpenReadingFrame = OpenReadingFrame(start: int, end: int, decoded: string)

  /** The character `decode_orf` appends for an amino acid. */
  function Symbol(a: Amino): char {
    match a
    case Acid(c) => c
    case Stop => '*'
  }

  /** The `j`-th full triple of `sub`. */
  function Codon(sub: string, j: nat): string
    requires 3 * j + 3 <= |sub|
  {
    sub[3 * j..3 * j + 3]
  }

  lemma CodonShift(sub: string, j: nat)
    requires 3 * j + 6 <= |sub|
    ensures Codon(sub[3..], j) == Codon(sub, j + 1)
  {
  }

  const UnpackError := "ValueError: not enough values to unpack (expected 3)"

  /** Symbols already decoded in front of the outcome of the rest of the loop. */
  function Cons(prefix: string, r: Run<string>): Run<string> {
    match r
    case Done(d) => Done(prefix + d)
    case Abort(e) => Abort(e)
  }

  /** The loop over `batched(sub_seq, 3)`: one symbol per triple up to and
      including the first STOP; a short last batch reached before any STOP
      fails to unpack. */
  function Translate(sub: string, table: string -> Amino): (r: Run<string>)
    ensures r.Done? ==> 3 * |r.value| <= |sub|
    ensures r.Done? && |sub| >= 3 ==> |r.value| >= 1
    decreases |sub|
  {
    if |sub| == 0 then Done("")
    else if |sub| < 3 then Abort(UnpackError)
    else match table(sub[..3])
      case Stop => Done("*")
      case Acid(c) => Cons([c], Translate(sub[3..], table))
  }

  /** The decoded string holds one symbol per triple read; every triple but
      the last is an amino acid, and the loop stopped either at a STOP or at
      the end of the input. */
  lemma {:induction false} TranslateSymbols(sub: string, table: string -> Amino)
    requires Translate(sub, table).Done?
    ensures var d := Translate(sub, table).value;
      && (forall j :: 0 <= j < |d| ==> d[j] == Symbol(table(Codon(sub, j))))
      && (forall j :: 0 <= j < |d| - 1 ==> table(Codon(sub, j)).Acid?)
      && (3 * |d| == |sub| || table(Codon(sub, |d| - 1)) == Stop)
    decreases |sub|
  {
    if |sub| >= 3 {
      assert Codon(sub, 0) == sub[..3];
      if table(sub[..3]).Acid? {
        var rest := sub[3..];
        TranslateSymbols(rest, table);
        SymbolsCons(sub, table, Translate(rest, table).value);
      }
    }
  }

  /** The step of `TranslateSymbols`: an amino acid in front of what the
      rest decoded to. */
  lemma SymbolsCons(sub: string, table: string -> Amino, d: string)
    requires |sub| >= 3 && table(sub[..3]).Acid? && 3 * |d| <= |sub| - 3
    requires |d| == 0 ==> |sub| == 3
    requires var rest := sub[3..];
      && (forall j :: 0 <= j < |d| ==> d[j] == Symbol(table(Codon(rest, j))))
      && (forall j :: 0 <= j < |d| - 1 ==> table(Codon(rest, j)).Acid?)
      && (3 * |d| == |rest| || table(Codon(rest, |d| - 1)) == Stop)
    ensures var all := [table(sub[..3]).letter] + d;
      && (forall j :: 0 <= j < |all| ==> all[j] == Symbol(table(Codon(sub, j))))
      && (forall j :: 0 <= j < |all| - 1 ==> table(Codon(sub, j)).Acid?)
      && (3 * |all| == |sub| || table(Codon(sub, |all| - 1)) == Stop)
  {
    var rest := sub[3..];
    var all := [table(sub[..3]).letter] + d;
    assert Codon(sub, 0) == sub[..3];
    forall j | 0 <= j < |d| ensures Codon(rest, j) == Codon(sub, j + 1) {
      CodonShift(sub, j);
    }
    forall j | 0 <= j < |all| ensures all[j] == Symbol(table(Codon(sub, j))) {
      if j > 0 {
        assert all[j] == d[j - 1];
      }
    }
    if |d| > 0 {
      assert Codon(rest, |d| - 1) == Codon(sub, |all| - 1);
    }
  }

  /** The unpacking error happens exactly when the length is not a multiple
      of three and no full triple is a STOP. */
  lemma {:induction false} TranslateAborts(sub: string, table: string -> Amino)
    ensures Translate(sub, table).Abort? <==>
      |sub| % 3 != 0 && forall j :: 0 <= j < |sub| / 3 ==> table(Codon(sub, j)).Acid?
    decreases |sub|
  {
    if |sub| >= 3 {
      var rest := sub[3..];
      assert Codon(sub, 0) == sub[..3];
      TranslateAborts(rest, table);
      assert |rest| % 3 == |sub| % 3 && |rest| / 3 == |sub| / 3 - 1;
      forall j | 0 <= j < |rest| / 3 ensures Codon(rest, j) == Codon(sub, j + 1) {
        CodonShift(sub, j);
      }
      if table(sub[..3]).Acid? && !Translate(rest, table).Abort? && |sub| % 3 != 0 {
        var j :| 0 <= j < |rest| / 3 && !table(Codon(rest, j)).Acid?;
        assert !table(Codon(sub, j + 1)).Acid?;
      }
      if table(sub[..3]).Acid? && Translate(rest, table).Abort? {
        forall j | 0 <= j < |sub| / 3 ensures table(Codon(sub, j)).Acid? {
          if j > 0 {
            assert Codon(rest, j - 1) == Codon(sub, j);
          }
        }
      }
    }
  }

  lemma ConsCons(p: string, q: string, r: Run<string>)
    ensures Cons(p, Cons(q, r)) == Cons(p + q, r)
  {
    if r.Done? {
      assert p + (q + r.value) == (p + q) + r.value;
    }
  }

  /** One batch of the decoding loop, seen through `Cons`. */
  lemma DecodeStep(decoded: string, rest: string, table: string -> Amino)
    requires |rest| > 0
    ensures |rest| < 3 ==> Cons(decoded, Translate(rest, table)) == Abort(UnpackError)
    ensures |rest| >= 3 && table(rest[..3]) == Stop ==> Cons(decoded, Translate(rest, table)) == Done(decoded + "*")
    ensures |rest| >= 3 && table(rest[..3]).Acid? ==>
      Cons(decoded, Translate(rest, table)) == Cons(decoded + [table(rest[..3]).letter], Translate(rest[3..], table))
  {
    if |rest| >= 3 && table(rest[..3]).Acid? {
      ConsCons(decoded, [table(rest[..3]).letter], Translate(rest[3..], table));
    }
  }

  /** The frame `decode_orf(sequence, start)` returns. */
  function OrfAt(sequence: Sequence, start: int, table: string -> Amino): Run<OpenReadingFrame> {
    match Translate(PySlice(sequence, start, |sequence|), table)
    case Done(d) => Done(OpenReadingFrame(start, start + 3 * |d|, d))
    case Abort(e) => Abort(e)
  }

  method DecodeOrf(sequence: Sequence, start: int, table: string -> Amino) returns (r: Run<OpenReadingFrame>)
    ensures r == OrfAt(sequence, start, table)
  {
    var subSeq := PySlice(sequence, start, |sequence|);
    var decoded := "";
    var i := 0;
    assert subSeq[3 * i..] == subSeq;
    match Translate(subSeq, table) {
      case Done(d) => assert "" + d == d;
      case Abort(_) =>
    }
    while 3 * i < |subSeq|
      invariant 3 * i <= |subSeq|
      invariant Translate(subSeq, table) == Cons(decoded, Translate(subSeq[3 * i..], table))
      decreases |subSeq| - 3 * i
    {
      var rest := subSeq[3 * i..];
      DecodeStep(decoded, rest, table);
      if |rest| < 3 {
        return Abort(UnpackError);
      }
      var amino := table(rest[..3]);
      if amino == Stop {
        decoded := decoded + "*";
        return Done(OpenReadingFrame(start, start + 3 * |decoded|, decoded));
      }
      assert rest[3..] == subSeq[3 * (i + 1)..];
      decoded := decoded + [amino.letter];
      i := i + 1;
    }
    assert subSeq[3 * i..] == "";
    assert decoded + "" == decoded;
    r := Done(OpenReadingFrame(start, start + 3 * |decoded|, decoded));
  }

  /** A frame from `decode_orf` is `start` plus three positions per symbol and
      never runs past the end of the sequence. */
  lemma OrfBounds(sequence: Sequence, start: nat, table: string -> Amino)
    requires start <= |sequence| && OrfAt(sequence, start, table).Done?
    ensures var orf := OrfAt(sequence, start, table).value;
      orf.start == start && orf.end == start + 3 * |orf.decoded| && orf.end <= |sequence|
  {
  }

  /** The first test: `GCTTAA` decodes to `A*`, ending at 6. */
  lemma DecodeOne(table: string -> Amino)
    requires table("GCT") == Acid('A') && table("TAA") == Stop
    ensures OrfAt("GCTTAA", 0, table) == Done(OpenReadingFrame(0, 6, "A*"))
  {
    var s := "GCTTAA";
    assert PySlice(s, 0, |s|) == s;
    assert s[..3] == "GCT" && s[3..] == "TAA" && "TAA"[..3] == "TAA";
    assert Translate("TAA", table) == Done("*");
    assert ['A'] + "*" == "A*";
    assert Translate(s, table) == Done("A*");
  }

  // ---------------------------------------------------------------------------
  // `all_orfs`

  predicate StartsWithAtg(s: string, i: nat) {
    i + 3 <= |s| && s[i..i + 3] == "ATG"
  }

  lemma OrfAtAtg(sequence: Sequence, i: nat, table: string -> Amino)
    requires StartsWithAtg(sequence, i) && OrfAt(sequence, i, table).Done?
    ensures i + 3 <= OrfAt(sequence, i, table).value.end <= |sequence|
  {
    var d := Translate(PySlice(sequence, i, |sequence|), table).value;
    assert |d| > 0;
  }

  /** The frames the generator yields from position `i` on. */
  function OrfsFrom(sequence: Sequence, i: nat, table: string -> Amino): Run<seq<OpenReadingFrame>>
    decreases |sequence| - i
  {
    if i >= |sequence| then Done([])
    else if StartsWithAtg(sequence, i) then
      match OrfAt(sequence, i, table)
      case Abort(e) => Abort(e)
      case Done(orf) =>
        OrfAtAtg(sequence, i, table);
        match OrfsFrom(sequence, orf.end, table)
        case Done(rest) => Done([orf] + rest)
        case Abort(e) => Abort(e)
    else OrfsFrom(sequence, i + 1, table)
  }

  function ConsOrfs(prefix: seq<OpenReadingFrame>, r: Run<seq<OpenReadingFrame>>): Run<seq<OpenReadingFrame>> {
    match r
    case Done(orfs) => Done(prefix + orfs)
    case Abort(e) => Abort(e)
  }

  /** A frame found at `i` comes first, followed by the frames after its end. */
  lemma OrfsStep(sequence: Sequence, i: nat, table: string -> Amino)
    requires StartsWithAtg(sequence, i) && OrfAt(sequence, i, table).Done?
    ensures var orf := OrfAt(sequence, i, table).value;
      i < orf.end <= |sequence| &&
      OrfsFrom(sequence, i, table) == ConsOrfs([orf], OrfsFrom(sequence, orf.end, table))
  {
    OrfAtAtg(sequence, i, table);
  }

  lemma ConsOrfsCons(p: seq<OpenReadingFrame>, o: OpenReadingFrame, r: Run<seq<OpenReadingFrame>>)
    ensures ConsOrfs(p, ConsOrfs([o], r)) == ConsOrfs(p + [o], r)
  {
    if r.Done? {
      assert p + ([o] + r.value) == (p + [o]) + r.value;
    }
  }

  /** `list(all_orfs(sequence))`: the exception of a `decode_orf` call ends
      the iteration. */
  method AllOrfs(sequence: Sequence, table: string -> Amino) returns (r: Run<seq<OpenReadingFrame>>)
    ensures r == OrfsFrom(sequence, 0, table)
  {
    var orfs: seq<OpenReadingFrame> := [];
    var i: nat := 0;
    match OrfsFrom(sequence, 0, table) {
      case Done(all) => assert [] + all == all;
      case Abort(_) =>
    }
    while i < |sequence|
      invariant OrfsFrom(sequence, 0, table) == ConsOrfs(orfs, OrfsFrom(sequence, i, table))
      decreases |sequence| - i
    {
      if StartsWithAtg(sequence, i) {
        var orf := DecodeOrf(sequence, i, table);
        if orf.Abort? {
          return Abort(orf.reason);
        }
        OrfsStep(sequence, i, table);
        ConsOrfsCons(orfs, orf.value, OrfsFrom(sequence, orf.value.end, table));
        orfs := orfs + [orf.value];
        i := orf.value.end;
        continue;
      }
      i := i + 1;
    }
    assert orfs + [] == orfs;
    r := Done(orfs);
  }

  /** Each frame starts at an `ATG`, is the frame `decode_orf` gives there,
      and lies inside the sequence after the scan position. */
  lemma {:induction false} OrfsStartAtAtg(sequence: Sequence, i: nat, table: string -> Amino)
    requires OrfsFrom(sequence, i, table).Done?
    ensures var orfs := OrfsFrom(sequence, i, table).value;
      forall j :: 0 <= j < |orfs| ==>
        && i <= orfs[j].start
        && StartsWithAtg(sequence, orfs[j].start)
        && OrfAt(sequence, orfs[j].start, table) == Done(orfs[j])
        && orfs[j].start + 3 <= orfs[j].end <= |sequence|
    decreases |sequence| - i
  {
    if i < |sequence| {
      if StartsWithAtg(sequence, i) {
        var orf := OrfAt(sequence, i, table).value;
        OrfAtAtg(sequence, i, table);
        OrfsStartAtAtg(sequence, orf.end, table);
      } else {
        OrfsStartAtAtg(sequence, i + 1, table);
      }
    }
  }

  /** Frames do not overlap: each one begins at or after the end of the one before. */
  lemma {:induction false} OrfsDisjoint(sequence: Sequence, i: nat, table: string -> Amino)
    requires OrfsFrom(sequence, i, table).Done?
    ensures var orfs := OrfsFrom(sequence, i, table).value;
      forall j :: 0 <= j < |orfs| - 1 ==> orfs[j].end <= orfs[j + 1].start
    decreases |sequence| - i
  {
    if i < |sequence| {
      if StartsWithAtg(sequence, i) {
        var orf := OrfAt(sequence, i, table).value;
        OrfAtAtg(sequence, i, table);
        OrfsDisjoint(sequence, orf.end, table);
        OrfsStartAtAtg(sequence, orf.end, table);
      } else {
        OrfsDisjoint(sequence, i + 1, table);
      }
    }
  }

  /** No `ATG` is skipped: every occurrence at or after the scan position is
      the start of a frame or lies inside one. */
  lemma {:induction false} OrfsCoverAtg(sequence: Sequence, i: nat, table: string -> Amino, p: nat)
    requires OrfsFrom(sequence, i, table).Done?
    requires i <= p && StartsWithAtg(sequence, p)
    ensures var orfs := OrfsFrom(sequence, i, table).value;
      exists j :: 0 <= j < |orfs| && orfs[j].start <= p < orfs[j].end
    decreases |sequence| - i
  {
    if StartsWithAtg(sequence, i) {
      var orf := OrfAt(sequence, i, table).value;
      OrfAtAtg(sequence, i, table);
      OrfsStep(sequence, i, table);
      var rest := OrfsFrom(sequence, orf.end, table).value;
      var orfs := OrfsFrom(sequence, i, table).value;
      assert orfs == [orf] + rest;
      if p < orf.end {
        assert orfs[0] == orf;
      } else {
        OrfsCoverAtg(sequence, orf.end, table, p);
        var j :| 0 <= j < |rest| && rest[j].start <= p < rest[j].end;
        assert orfs[j + 1] == rest[j];
      }
    } else {
      assert p != i;
      OrfsCoverAtg(sequence, i + 1, table, p);
    }
  }

  predicate StandardCodons(table: string -> Amino) {
    && table("ATG") == Acid('M') && table("GCT") == Acid('A') && table("TAA") == Stop
    && table("AAT") == Acid('N') && table("TAG") == Stop
  }

  const TestDna: Sequence := "ATGGCTTAAATGAATTAG"

  lemma FirstFrame(table: string -> Amino)
    requires StandardCodons(table)
    ensures OrfAt(TestDna, 0, table) == Done(OpenReadingFrame(0, 9, "MA*"))
  {
    var first := TestDna[0..];
    assert PySlice(TestDna, 0, |TestDna|) == first;
    assert first[..3] == "ATG" && first[3..][..3] == "GCT" && first[3..][3..][..3] == "TAA";
    assert Translate(first[3..][3..], table) == Done("*");
    assert ['A'] + "*" == "A*" && ['M'] + "A*" == "MA*";
    assert Translate(first[3..], table) == Done("A*");
  }

  lemma SecondFrame(table: string -> Amino)
    requires StandardCodons(table)
    ensures OrfAt(TestDna, 9, table) == Done(OpenReadingFrame(9, 18, "MN*"))
  {
    var second := TestDna[9..];
    assert PySlice(TestDna, 9, |TestDna|) == second;
    assert second[..3] == "ATG" && second[3..][..3] == "AAT" && second[3..][3..][..3] == "TAG";
    assert Translate(second[3..][3..], table) == Done("*");
    assert ['N'] + "*" == "N*" && ['M'] + "N*" == "MN*";
    assert Translate(second[3..], table) == Done("N*");
  }

  /** The small test: `ATGGCTTAAATGAATTAG` holds exactly the frames
      (0, 9, `MA*`) and (9, 18, `MN*`). */
  lemma TwoFrames(table: string -> Amino)
    requires StandardCodons(table)
    ensures OrfsFrom(TestDna, 0, table) ==
      Done([OpenReadingFrame(0, 9, "MA*"), OpenReadingFrame(9, 18, "MN*")])
  {
    FirstFrame(table);
    SecondFrame(table);
    var o1, o2 := OpenReadingFrame(0, 9, "MA*"), OpenReadingFrame(9, 18, "MN*");
    assert StartsWithAtg(TestDna, 0) && StartsWithAtg(TestDna, 9);
    OrfsStep(TestDna, 9, table);
    assert OrfsFrom(TestDna, 18, table) == Done([]);
    assert [o2] + [] == [o2];
    OrfsStep(TestDna, 0, table);
    assert [o1] + [o2] == [o1, o2];
  }
}
