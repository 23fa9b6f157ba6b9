/** The case-insensitive whole-word search `(?i)\btest\b` that the analysis
    scripts use to recognise test messages, and the check script that runs it
    over six sample messages. */
module WordFilter {
  import opened Text
  import opened Seqs

  /** `(?i)\btest\b` matches at `i`: four characters that lower-case to
      "test", with the start of the text or a non-word character before them
      and the end of the text or a non-word character after them. */
  predicate WholeWordAt(m: string, i: nat)
  {
    i + 4 <= |m|
    && LowerChar(m[i]) == 't' && LowerChar(m[i + 1]) == 'e' && LowerChar(m[i + 2]) == 's' && LowerChar(m[i + 3]) == 't'
    && (i == 0 || !IsWordChar(m[i - 1]))
    && (i + 4 == |m| || !IsWordChar(m[i + 4]))
  }

  /** The leftmost match at or after `i`, if there is one. */
  function FirstMatch(m: string, i: nat): (r: Option<nat>)
    requires i <= |m|
    ensures r.Some? ==> i <= r.value && WholeWordAt(m, r.value)
    ensures r.Some? ==> forall j :: i <= j < r.value ==> !WholeWordAt(m, j)
    ensures r.None? ==> forall j :: i <= j ==> !WholeWordAt(m, j)
    decreases |m| - i
  {
    if |m| < i + 4 then None
    else if WholeWordAt(m, i) then Some(i)
    else FirstMatch(m, i + 1)
  }

  /** `str.contains(r"(?i)\btest\b")` */
  function ContainsTest(m: string): (r: bool)
    ensures r <==> exists i :: WholeWordAt(m, i)
  {
    FirstMatch(m, 0).Some?
  }

  lemma LowerCharKeepsWord(c: char)
    ensures IsWordChar(LowerChar(c)) == IsWordChar(c)
  {
  }

  /** Texts that differ only in letter case match alike. */
  lemma CaseInsensitive(a: string, b: string)
    requires Lower(a) == Lower(b)
    ensures ContainsTest(a) == ContainsTest(b)
  {
    forall i: nat | WholeWordAt(a, i) ensures WholeWordAt(b, i) {
      SameWordAt(a, b, i);
    }
    forall i: nat | WholeWordAt(b, i) ensures WholeWordAt(a, i) {
      SameWordAt(b, a, i);
    }
  }

  lemma SameWordAt(a: string, b: string, i: nat)
    requires Lower(a) == Lower(b) && WholeWordAt(a, i)
    ensures WholeWordAt(b, i)
  {
    assert |a| == |Lower(a)| == |b|;
    assert Lower(a)[i] == Lower(b)[i] && Lower(a)[i + 1] == Lower(b)[i + 1];
    assert Lower(a)[i + 2] == Lower(b)[i + 2] && Lower(a)[i + 3] == Lower(b)[i + 3];
    if i > 0 {
      LowerCharKeepsWord(a[i - 1]);
      LowerCharKeepsWord(b[i - 1]);
      assert LowerChar(a[i - 1]) == Lower(a)[i - 1] == LowerChar(b[i - 1]);
    }
    if i + 4 < |a| {
      LowerCharKeepsWord(a[i + 4]);
      LowerCharKeepsWord(b[i + 4]);
      assert LowerChar(a[i + 4]) == Lower(a)[i + 4] == LowerChar(b[i + 4]);
    }
  }

  /** A match starts with a `t` or a `T`, so a text with neither is kept. */
  lemma NoLetterT(m: string)
    requires 't' !in m && 'T' !in m
    ensures !ContainsTest(m)
  {
    forall i: nat | i < |m| ensures !WholeWordAt(m, i) {
      assert m[i] != 't' && m[i] != 'T';
    }
  }

  // The sample messages of the check script.

  datatype Message = Message(id: nat, text: string)

  const Samples: seq<Message> := [
    Message(1, "This is a valid message"),
    Message(2, "TESTOPROEP MOB"),
    Message(3, "This is a Test: run"),
    Message(4, "test bla bla"),
    Message(5, "Don't touch my testicles"),
    Message(6, "A contest is fun")
  ]

  function Ids(ms: seq<Message>): (ids: seq<nat>)
    ensures |ids| == |ms| && forall k :: 0 <= k < |ms| ==> ids[k] == ms[k].id
  {
    if ms == [] then [] else [ms[0].id] + Ids(ms[1..])
  }

  function NotTest(msg: Message): bool { !ContainsTest(msg.text) }

  /** `run_test`: the ids of the messages the filter keeps. */
  function RunTest(): seq<nat>
  {
    Ids(Filter(Samples, NotTest))
  }

  /** A text that starts with the word: the start of the text is a boundary. */
  lemma LeadingWord() ensures ContainsTest("test bla bla")
  {
    assert WholeWordAt("test bla bla", 0);
  }

  /** A capitalised word followed by punctuation. */
  lemma WordBeforeColon() ensures ContainsTest("This is a Test: run")
  {
    assert WholeWordAt("This is a Test: run", 10);
  }

  lemma NoWordInPlainMessage() ensures !ContainsTest("This is a valid message")
  {
    NoWordInPlain("This is a valid message");
  }

  lemma NoWordInPlain(m: string)
    requires m == "This is a valid message"
    ensures forall i: nat :: !WholeWordAt(m, i)
  {
  }

  /** "test" at the start of a longer word is not the word. */
  lemma NoWordAsPrefix() ensures !ContainsTest("TESTOPROEP MOB") {}

  lemma NoWordInLongerWord() ensures !ContainsTest("Don't touch my testicles")
  {
    NoWordInHead("Don't touch my testicles");
    NoWordInTail("Don't touch my testicles");
  }

  lemma NoWordInHead(m: string)
    requires m == "Don't touch my testicles"
    ensures forall i: nat :: i < 12 ==> !WholeWordAt(m, i)
  {
  }

  /** The "test" of "testicles" is followed by the word character 'i'. */
  lemma NoWordInTail(m: string)
    requires m == "Don't touch my testicles"
    ensures forall i: nat :: 12 <= i ==> !WholeWordAt(m, i)
  {
    assert m[19] == 'i';
  }

  /** "test" at the end of a longer word is not the word either. */
  lemma NoWordAsSuffix() ensures !ContainsTest("A contest is fun") {}

  lemma FilterStep(ms: seq<Message>, k: nat)
    requires k < |ms|
    ensures Filter(ms[k..], NotTest) == (if NotTest(ms[k]) then [ms[k]] else []) + Filter(ms[k + 1..], NotTest)
  {
    assert ms[k..][1..] == ms[k + 1..];
  }

  /** Six messages with the verdicts of the samples filter to the first,
      second, fifth and sixth. */
  lemma {:induction false} FilterSamplesShape(ms: seq<Message>)
    requires |ms| == 6
    requires NotTest(ms[0]) && NotTest(ms[1]) && !NotTest(ms[2]) && !NotTest(ms[3]) && NotTest(ms[4]) && NotTest(ms[5])
    ensures Filter(ms, NotTest) == [ms[0], ms[1], ms[4], ms[5]]
  {
    assert ms[6..] == [];
    FilterStep(ms, 5);
    FilterStep(ms, 4);
    FilterStep(ms, 3);
    FilterStep(ms, 2);
    FilterStep(ms, 1);
    FilterStep(ms, 0);
    assert ms[0..] == ms;
  }

  /** The verdict on each sample, as the comments in the check script
      expect it. */
  lemma SampleVerdicts()
    ensures NotTest(Samples[0]) && NotTest(Samples[1]) && !NotTest(Samples[2])
    ensures !NotTest(Samples[3]) && NotTest(Samples[4]) && NotTest(Samples[5])
  {
    NoWordInPlainMessage();
    NoWordAsPrefix();
    WordBeforeColon();
    LeadingWord();
    NoWordInLongerWord();
    NoWordAsSuffix();
  }

  /** `run_test` passes: the messages with ids 3 and 4 are removed and the
      others are kept, in their original order. */
  lemma RunTestPasses()
    ensures RunTest() == [1, 2, 5, 6]
  {
    SampleVerdicts();
    FilterSamplesShape(Samples);
  }
}
