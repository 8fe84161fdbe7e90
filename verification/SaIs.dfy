/** Suffix array construction by induced sorting (SA-IS): the worker for one level, and its recursion. */
module SaIs {
  import opened Counting
  import opened SuffixOrder
  import opened LmsTypes
  import opened Buckets
  import opened Stages
  import opened SBuckets
  import opened LmsNames

  const L_TYPE := false
  const S_TYPE := true

  class Worker {
    const str: seq<int>
    const alphabetSize: nat
    var suffArray: seq<int>
    var charTypes: seq<bool>
    var lmsSubstrings: seq<int>
    var lmsFlag: seq<bool>
    var baskets: Baskets
    var charCounter: int
    var charInducedCounters: seq<int>
    var inducedString: seq<int>
    var inducedSuffixArray: seq<int>

    ghost function X(): (x: Typed)
      reads this
      ensures x.s == str && x.a == alphabetSize && x.st == charTypes && x.lms == lmsFlag
    {
      Typed(str, alphabetSize, charTypes, lmsFlag)
    }

    constructor (str: seq<int>, alphabetSize: nat)
      ensures this.str == str && this.alphabetSize == alphabetSize
      ensures lmsSubstrings == [] && charTypes == [] && lmsFlag == []
    {
      this.str, this.alphabetSize := str, alphabetSize;
      suffArray, charTypes, lmsSubstrings, lmsFlag, baskets := [], [], [], [], [];
      charCounter, charInducedCounters, inducedString, inducedSuffixArray := 0, [], [], [];
    }

    method ClassifyChars()
      requires |str| >= 2
      modifies this`charTypes
      ensures |charTypes| == |str| && forall i :: 0 <= i < |str| ==> charTypes[i] == IsS(str, i)
    {
      charTypes := seq(|str|, i => L_TYPE);
      charTypes := charTypes[|str| - 1 := S_TYPE];
      var i := |str| - 2;
      while true
        invariant 0 <= i <= |str| - 2 && |charTypes| == |str|
        invariant forall k :: i < k < |str| ==> charTypes[k] == IsS(str, k)
        decreases i
      {
        if str[i] > str[i + 1] {
          charTypes := charTypes[i := L_TYPE];
        }
        if str[i] < str[i + 1] {
          charTypes := charTypes[i := S_TYPE];
        }
        if str[i] == str[i + 1] {
          charTypes := charTypes[i := charTypes[i + 1]];
        }
        if i == 0 {
          break;
        }
        i := i - 1;
      }
    }

    /** Collects the leftmost-S positions; a one-character string counts as a single one. */
    method FindLmsBorders()
      requires 1 <= |str| == |charTypes| && forall i :: 0 <= i < |str| ==> charTypes[i] == IsS(str, i)
      requires lmsSubstrings == []
      modifies this`lmsFlag, this`lmsSubstrings
      ensures |lmsFlag| == |str|
      ensures |str| == 1 ==> lmsFlag == [true] && lmsSubstrings == [0]
      ensures |str| >= 2 ==> LmsList(str, lmsSubstrings) && forall i :: 0 <= i < |str| ==> lmsFlag[i] == IsLms(str, i)
    {
      var stringSize := |str|;
      lmsFlag := seq(stringSize, i => false);
      if stringSize == 1 {
        lmsFlag := lmsFlag[0 := true];
        lmsSubstrings := lmsSubstrings + [0];
        return;
      }
      for i := 1 to stringSize
        invariant |lmsFlag| == |str| && forall p :: 0 <= p < |str| ==> lmsFlag[p] == (p < i && IsLms(str, p))
        invariant forall a :: 0 <= a < |lmsSubstrings| ==> IsLms(str, lmsSubstrings[a]) && lmsSubstrings[a] < i
        invariant forall a, b :: 0 <= a < b < |lmsSubstrings| ==> lmsSubstrings[a] < lmsSubstrings[b]
        invariant forall p :: 0 <= p < i && IsLms(str, p) ==> p in lmsSubstrings
      {
        if charTypes[i - 1] == L_TYPE && charTypes[i] == S_TYPE {
          lmsFlag := lmsFlag[i := true];
          lmsSubstrings := lmsSubstrings + [i];
          assert lmsSubstrings[|lmsSubstrings| - 1] == i;
        }
      }
    }

    /** One bucket per character, with a free slot for every occurrence. */
    method InitBaskets()
      requires Alphabet(str, alphabetSize)
      modifies this`baskets
      ensures EmptyBuckets(X(), baskets)
    {
      var basketSize := seq(alphabetSize, c => 0);
      for i := 0 to |str|
        invariant |basketSize| == alphabetSize
        invariant forall c :: 0 <= c < alphabetSize ==> basketSize[c] == CountTrue(CharMask(X(), c), i)
      {
        basketSize := basketSize[str[i] := basketSize[str[i]] + 1];
      }
      baskets := [];
      for c := 0 to alphabetSize
        invariant |baskets| == c && forall d :: 0 <= d < c ==> |baskets[d]| == basketSize[d]
        invariant forall d, j {:trigger baskets[d][j]} :: 0 <= d < c && 0 <= j < |baskets[d]| ==> baskets[d][j] == EMPTY
      {
        baskets := baskets + [seq(basketSize[c], j => EMPTY)];
      }
    }

    method ClearBaskets()
      requires |baskets| == alphabetSize && forall c :: 0 <= c < alphabetSize ==> |baskets[c]| == Size(X(), c)
      modifies this`baskets
      ensures EmptyBuckets(X(), baskets)
    {
      ghost var b := baskets;
      for i := 0 to |baskets|
        invariant |baskets| == alphabetSize && forall c :: 0 <= c < alphabetSize ==> |baskets[c]| == |b[c]|
        invariant forall c, j {:trigger baskets[c][j]} :: 0 <= c < i && 0 <= j < |baskets[c]| ==> baskets[c][j] == EMPTY
      {
        for j := 0 to |baskets[i]|
          invariant |baskets| == alphabetSize && forall c :: 0 <= c < alphabetSize ==> |baskets[c]| == |b[c]|
          invariant forall c, k {:trigger baskets[c][k]} :: 0 <= c < i && 0 <= k < |baskets[c]| ==>
                      baskets[c][k] == EMPTY
          invariant forall k :: 0 <= k < j ==> baskets[i][k] == EMPTY
        {
          baskets := baskets[i := baskets[i][j := EMPTY]];
        }
      }
    }

    /** Stages 2 and 3: induce the L-type positions from the staged ones, left to right, and the S-type
        positions from the L-type ones, right to left. Every slot ends up with its position. */
    method InducedSort(ghost w: seq<int>, ghost k: seq<int>, ghost order: seq<int>, ghost staged: Pass)
      returns (ghost at: seq<int>)
      requires |str| >= 2 && WellTyped(X()) && Staged(X(), w, order, |order|, staged) && StageOrder(X(), w, order)
      requires staged.b == baskets && |k| == |str|
      requires Weights(X(), w, false) && Weights(X(), k, true) && Refines(X(), w, k)
      modifies this`baskets
      ensures Filled(X(), k, baskets, at)
    {
      var end, head := seq(|baskets|, i => 0), seq(|baskets|, i => 0);
      for i := 0 to |baskets|
        invariant |end| == |head| == |baskets|
        invariant forall c :: 0 <= c < i ==>
                    end[c] == (if |baskets[c]| != 0 then |baskets[c]| - 1 else 0) && head[c] == 0
      {
        end := end[i := if |baskets[i]| != 0 then |baskets[i]| - 1 else 0];
        head := head[i := 0];
      }
      StageDone(X(), w, order, staged, head);
      ghost var b0 := baskets;
      ghost var m := InduceL(w, Starts(staged), staged.at, head);
      SStart(X(), w, k, Starts(staged), m);
      assert BackStart(X(), m).edge == end;
      at := InduceS(k, m.edge, BackStart(X(), m).at, end);
    }

    method InduceL(ghost w: seq<int>, ghost lo: seq<int>, ghost at0: seq<int>, head0: seq<int>) returns (ghost m: Pass)
      requires LState(X(), w, lo, Pass(baskets, at0, head0), 0, 0)
      modifies this`baskets
      ensures m.b == baskets && LState(X(), w, lo, m, alphabetSize, 0)
      ensures |baskets| == |old(baskets)| && forall c :: 0 <= c < |baskets| ==> |baskets[c]| == |old(baskets)[c]|
    {
      hide *;
      ghost var b0, at := baskets, at0;
      var head := head0;
      LFacts(X(), w, lo, Pass(baskets, at, head), 0, 0);
      for i := 0 to |baskets|
        invariant |baskets| == |b0| == alphabetSize && forall c :: 0 <= c < |b0| ==> |baskets[c]| == |b0[c]|
        invariant LState(X(), w, lo, Pass(baskets, at, head), i, 0)
      {
        for j := 0 to |baskets[i]|
          invariant |baskets| == |b0| == alphabetSize && forall c :: 0 <= c < |b0| ==> |baskets[c]| == |b0[c]|
          invariant LState(X(), w, lo, Pass(baskets, at, head), i, j)
        {
          LStep(X(), w, lo, Pass(baskets, at, head), i, j);
          if baskets[i][j] == 0 || baskets[i][j] == EMPTY {
            continue;
          }
          var curPosition := baskets[i][j] - 1;
          var curChar := str[curPosition];
          if !charTypes[curPosition] {   // L-type
            at := at[curPosition := head[curChar]];
            baskets := baskets[curChar := baskets[curChar][head[curChar] := curPosition]];
            head := head[curChar := head[curChar] + 1];
          }
        }
        LNextBucket(X(), w, lo, Pass(baskets, at, head), i);
      }
      m := Pass(baskets, at, head);
    }

    method InduceS(ghost k: seq<int>, ghost lz: seq<int>, ghost at0: seq<int>, end0: seq<int>)
      returns (ghost at: seq<int>)
      requires SState(X(), k, lz, Pass(baskets, at0, end0), alphabetSize, 0)
      modifies this`baskets
      ensures Filled(X(), k, baskets, at)
    {
      hide *;
      at := at0;
      var end := end0;
      SFacts(X(), k, lz, Pass(baskets, at, end), alphabetSize, 0);
      var i := |baskets|;
      while i != 0
        invariant 0 <= i <= |baskets| == alphabetSize
        invariant SState(X(), k, lz, Pass(baskets, at, end), i, 0)
      {
        SNextBucket(X(), k, lz, Pass(baskets, at, end), i);
        i := i - 1;
        var j := |baskets[i]|;
        while j != 0
          invariant |baskets| == alphabetSize && 0 <= j <= |baskets[i]|
          invariant SState(X(), k, lz, Pass(baskets, at, end), i, j)
        {
          j := j - 1;
          SStep(X(), k, lz, Pass(baskets, at, end), i, j);
          if baskets[i][j] == EMPTY || baskets[i][j] == 0 {
            continue;
          }
          var curPosition := baskets[i][j] - 1;
          var curChar := str[curPosition];
          if charTypes[curPosition] {   // S-type
            at := at[curPosition := end[curChar]];
            baskets := baskets[curChar := baskets[curChar][end[curChar] := curPosition]];
            end := end[curChar := end[curChar] - 1];
          }
        }
      }
      SDone(X(), k, lz, Pass(baskets, at, end));
    }

    /** First use: the leftmost-S positions are staged in text order, and all substrings up to the next
        leftmost-S position come out sorted. */
    method InducedSortLms() returns (ghost at: seq<int>)
      requires |str| >= 2 && WellTyped(X()) && LmsList(str, lmsSubstrings) && EmptyBuckets(X(), baskets)
      modifies this`baskets
      ensures Filled(X(), StartRanks(str), baskets, at)
    {
      hide *;
      ghost var w := ReachRanks(str);
      TextOrder(X(), lmsSubstrings);
      SubstringWeights(X());
      LmsAreS(X());
      TypedText(X());
      var head := seq(|baskets|, c => 0);
      at := seq(|str|, p => -1);
      StageEmpty(X(), w, lmsSubstrings, Pass(baskets, at, head));
      for i := 0 to |lmsSubstrings|
        invariant Staged(X(), w, lmsSubstrings, i, Pass(baskets, at, head))
      {
        StageNext(X(), w, lmsSubstrings, i, Pass(baskets, at, head));
        var curBasket := str[lmsSubstrings[i]];
        at := at[lmsSubstrings[i] := |baskets[curBasket]| - 1 - head[curBasket]];
        var slot := |baskets[curBasket]| - 1 - head[curBasket];
        baskets := baskets[curBasket := baskets[curBasket][slot := lmsSubstrings[i]]];
        head := head[curBasket := head[curBasket] + 1];
      }
      at := InducedSort(w, StartRanks(str), lmsSubstrings, Pass(baskets, at, head));
    }

    /** Second use: the leftmost-S positions are staged by their suffixes, and all suffixes come out sorted. */
    method InducedSortSuff() returns (ghost at: seq<int>)
      requires |str| >= 2 && WellTyped(X()) && LmsList(str, lmsSubstrings) && EmptyBuckets(X(), baskets)
      requires Names(str, lmsSubstrings, inducedString) && IsSuffixArray(inducedString, inducedSuffixArray)
      requires |inducedSuffixArray| >= 1
      modifies this`baskets
      ensures Filled(X(), SuffixRanks(str), baskets, at)
    {
      hide *;
      ghost var w := SuffixRanks(str);
      ReducedFacts(X(), lmsSubstrings, inducedString, inducedSuffixArray);
      ghost var order := Descending(lmsSubstrings, inducedSuffixArray);
      DescendingOrder(X(), lmsSubstrings, inducedString, inducedSuffixArray);
      SuffixWeights(X());
      LmsAreS(X());
      TypedText(X());
      var head := seq(|baskets|, c => 0);
      at := seq(|str|, p => -1);
      StageEmpty(X(), w, order, Pass(baskets, at, head));
      var i := |inducedSuffixArray| - 1;
      while true
        invariant 0 <= i < |inducedSuffixArray|
        invariant Staged(X(), w, order, |inducedSuffixArray| - 1 - i, Pass(baskets, at, head))
        decreases i
      {
        ghost var done := |inducedSuffixArray| - 1 - i;
        StageNext(X(), w, order, done, Pass(baskets, at, head));
        var position := lmsSubstrings[inducedSuffixArray[i]];
        var curBasket := str[position];
        at := at[position := |baskets[curBasket]| - 1 - head[curBasket]];
        baskets := baskets[curBasket := baskets[curBasket][|baskets[curBasket]| - 1 - head[curBasket] := position]];
        head := head[curBasket := head[curBasket] + 1];
        if i == 0 {
          break;
        }
        i := i - 1;
      }
      at := InducedSort(w, w, order, Pass(baskets, at, head));
    }

    /** Do the substrings at two different positions agree up to the next leftmost-S positions? */
    method EqualLms(first: nat, second: nat) returns (equal: bool)
      requires Text(str) && |charTypes| == |str| && forall i :: 0 <= i < |str| ==> charTypes[i] == IsS(str, i)
      requires first < |str| && second < |str| && first != second
      ensures equal <==> Tied(str, first, second)
    {
      var lms1: nat, lms2: nat, lType := first, second, false;
      while str[lms1] == str[lms2] && charTypes[lms1] == charTypes[lms2]
        invariant lms1 < |str| && lms2 < |str| && lms1 != lms2
        invariant lType ==> lms1 >= 1 && lms2 >= 1 && IsL(str, lms1 - 1) && IsL(str, lms2 - 1)
        invariant Tied(str, first, second) <==> if lType then ReachTied(str, lms1, lms2) else Tied(str, lms1, lms2)
        decreases |str| - lms1
      {
        ReachTie(str, lms1, lms2);
        TieStep(str, lms1, lms2);
        if charTypes[lms1] == L_TYPE {
          lType := true;
        }
        if lType && charTypes[lms1] == S_TYPE {
          return true;
        }
        assert lms1 < |str| - 1 && lms2 < |str| - 1;   // so the program never aborts here
        ReachTie(str, lms1 + 1, lms2 + 1);
        lms1, lms2 := lms1 + 1, lms2 + 1;
      }
      ReachTie(str, lms1, lms2);
      TieStep(str, lms1, lms2);
      return false;
    }

    /** Numbers the sorted substrings; equal ones share a number. */
    method ExportLmsChars(ghost at: seq<int>) returns (ghost g: Given)
      requires WellTyped(X()) && Filled(X(), StartRanks(str), baskets, at)
      modifies this`charInducedCounters, this`charCounter
      ensures Naming(X(), StartRanks(str), at, alphabetSize, 0, g)
      ensures g.names == charInducedCounters && g.counter == charCounter
    {
      hide WellTyped, Filled, Naming, StartRanks, Tied, IsS, IsLms, Text;
      ghost var k := StartRanks(str);
      TypedFacts(X());
      RanksOf(str);
      charInducedCounters := seq(|str|, i => 0);
      charCounter := 0;
      var first, prevLms := true, 0;
      FilledAt(X(), k, baskets, at);
      NamingStart(X(), k, at, charInducedCounters);
      for i := 0 to |baskets|
        invariant Naming(X(), k, at, i, 0, Given(charInducedCounters, charCounter, first, prevLms)) && prevLms < |str|
      {
        for j := 0 to |baskets[i]|
          invariant Naming(X(), k, at, i, j, Given(charInducedCounters, charCounter, first, prevLms)) && prevLms < |str|
        {
          FilledSlot(X(), k, baskets, at, i, j);
          var position := baskets[i][j];
          if lmsFlag[position] {
            NamingStep(X(), k, baskets, at, i, j, Given(charInducedCounters, charCounter, first, prevLms));
            if !first {
              NamingPrev(X(), k, baskets, at, i, j, Given(charInducedCounters, charCounter, first, prevLms));
              TiedRanks(str, prevLms, position);
              var same := EqualLms(prevLms, position);
              if !same {
                charCounter := charCounter + 1;
              }
            }
            charInducedCounters := charInducedCounters[position := charCounter];
            prevLms := position;
            first := false;
          } else {
            NamingSkip(X(), k, baskets, at, i, j, Given(charInducedCounters, charCounter, first, prevLms));
          }
        }
        NamingNextBucket(X(), k, baskets, at, i, Given(charInducedCounters, charCounter, first, prevLms));
      }
      g := Given(charInducedCounters, charCounter, first, prevLms);
    }

    /** The string of the names of the substrings, in text order; it is at most half as long as the text. */
    method InduceString(ghost at: seq<int>)
      requires WellTyped(X()) && |str| >= 2 && LmsList(str, lmsSubstrings) && Filled(X(), StartRanks(str), baskets, at)
      modifies this`charInducedCounters, this`charCounter, this`inducedString
      ensures charCounter >= 0 && Alphabet(inducedString, charCounter + 1)
      ensures Names(str, lmsSubstrings, inducedString)
      ensures |inducedString| == |lmsSubstrings| && 2 * |inducedString| <= |str|
      ensures if charCounter + 1 == |lmsSubstrings| then
                && (forall i :: 0 <= i < |inducedString| ==> 0 <= inducedString[i] < |inducedString|)
                && (forall v :: 0 <= v < |inducedString| ==> v in inducedString)
              else
                |inducedString| >= 2
    {
      hide WellTyped, Filled, Names, LmsList, StartRanks, Naming, Alphabet;
      TypedText(X());
      ListIsShort(str, lmsSubstrings);
      ghost var g := ExportLmsChars(at);
      ListInRange(str, lmsSubstrings);
      NamingLength(X(), StartRanks(str), at, g);
      var names := seq(|lmsSubstrings|, i => 0);
      for i := 0 to |lmsSubstrings|
        invariant |names| == |lmsSubstrings|
        invariant forall j :: 0 <= j < i ==> names[j] == charInducedCounters[lmsSubstrings[j]]
      {
        names := names[i := charInducedCounters[lmsSubstrings[i]]];
      }
      inducedString := names;
      NamingDone(X(), at, g, lmsSubstrings, inducedString);
      ReducedShape(X(), lmsSubstrings, inducedString, charCounter);
    }

    /** With all names different, the suffix array of the string of names is its inverse. */
    method ComputeSuffixArray() returns (inverse: seq<int>)
      requires forall i :: 0 <= i < |inducedString| ==> 0 <= inducedString[i] < |inducedString|
      requires forall v :: 0 <= v < |inducedString| ==> v in inducedString
      ensures IsSuffixArray(inducedString, inverse)
    {
      inverse := seq(|inducedString|, i => 0);
      for i := 0 to |inducedString|
        invariant |inverse| == |inducedString| && forall v :: 0 <= v < |inverse| ==> 0 <= inverse[v] < |inverse|
        invariant forall j :: 0 <= j < i ==> inducedString[inverse[inducedString[j]]] == inducedString[j]
      {
        inverse := inverse[inducedString[i] := i];
      }
      forall v | 0 <= v < |inverse|
        ensures inducedString[inverse[v]] == v
      {
        assert v in inducedString;
      }
      InverseIsSuffixArray(inducedString, inverse);
    }

    /** Reads the suffix array off the buckets. */
    method CollectSuffixArray(ghost at: seq<int>)
      requires WellTyped(X()) && Filled(X(), SuffixRanks(str), baskets, at)
      modifies this`suffArray
      ensures IsSuffixArray(str, suffArray)
    {
      hide WellTyped, Filled, SuffixRanks, Collected;
      TypedFacts(X());
      suffArray := seq(|str|, i => 0);
      var index := 0;
      CollectStart(X(), SuffixRanks(str), baskets, at);
      assert suffArray[..0] == [];
      for i := 0 to |baskets|
        invariant index <= |suffArray| == |str| && Collected(X(), at, suffArray[..index], i, 0)
      {
        for j := 0 to |baskets[i]|
          invariant index <= |suffArray| == |str| && Collected(X(), at, suffArray[..index], i, j)
        {
          CollectStep(X(), baskets, at, suffArray[..index], i, j);
          ghost var before := suffArray[..index];
          suffArray := suffArray[index := baskets[i][j]];
          index := index + 1;
          assert suffArray[..index] == before + [baskets[i][j]];
        }
        CollectNextBucket(X(), SuffixRanks(str), baskets, at, suffArray[..index], i);
      }
      CollectDone(X(), at, suffArray[..index]);
      CollectLength(X(), suffArray[..index]);
      assert suffArray[..index] == suffArray;
    }

    /**
     * The whole algorithm, through every level of recursion: the suffixes of the text, sorted. All levels together
     * work on at most twice as many characters as the text has.
     */
    method Run() returns (ghost total: nat)
      requires Alphabet(str, alphabetSize) && |str| >= 2 && lmsSubstrings == []
      modifies this
      ensures IsSuffixArray(str, suffArray)
      ensures |str| <= total <= 2 * |str|
      decreases |str|
    {
      hide Filled, Names, LmsList, IsSuffixArray, StartRanks, SuffixRanks, Reduced, Naming, EmptyBuckets, IsS, IsLms;
      ClassifyChars();
      FindLmsBorders();
      InitBaskets();
      ghost var at := InducedSortLms();
      InduceString(at);
      total := |str|;
      if charCounter + 1 == |lmsSubstrings| {
        inducedSuffixArray := ComputeSuffixArray();
      } else {
        var nextLevel := new Worker(inducedString, charCounter + 1);
        ghost var rest := nextLevel.Run();
        total := total + rest;
        inducedSuffixArray := nextLevel.suffArray;
      }
      SuffixArrayLength(inducedString, inducedSuffixArray);
      FilledLengths(X(), StartRanks(str), baskets, at);
      ClearBaskets();
      at := InducedSortSuff();
      CollectSuffixArray(at);
    }
  }
}
