/**
 Which topic or head word each argument of an event is read from, as the three generators
 assign it (internal/codegen/codegen.go, parser.go and views.go), when that is the standard's
 word, and what unpacking by the assignment yields.
 */
module AbiPlan {
  import opened Options
  import opened AbiWords
  import opened AbiTypes
  import opened AbiCodec

  /** Omitted arguments are declared but not decoded; indexed ones travel as topics. */
  datatype Arg = Arg(ty: Ty, indexed: bool, omitted: bool)

  datatype Source = Skipped | FromTopic(topic: nat) | FromWord(word: nat)

  /** The reference: topics count from 1 over indexed arguments, words over the others' heads. */
  function PlanFrom(args: seq<Arg>, topic: nat, word: nat): (plan: seq<Source>)
    ensures |plan| == |args|
    ensures forall i :: 0 <= i < |args| ==>
              (plan[i].FromTopic? ==> args[i].indexed) && (plan[i].FromWord? ==> !args[i].indexed)
  {
    if args == [] then []
    else
      var a := args[0];
      [if a.omitted then Skipped else if a.indexed then FromTopic(topic) else FromWord(word)]
      + if a.indexed then PlanFrom(args[1..], topic + 1, word)
        else PlanFrom(args[1..], topic, word + PlanWords(a.ty))
  }

  function Plan(args: seq<Arg>): (plan: seq<Source>)
    ensures |plan| == |args|
    ensures forall i :: 0 <= i < |args| ==>
              (plan[i].FromTopic? ==> args[i].indexed) && (plan[i].FromWord? ==> !args[i].indexed)
  {
    PlanFrom(args, 1, 0)
  }

  function IndexedCount(args: seq<Arg>): nat {
    if args == [] then 0 else IndexedCount(args[1..]) + if args[0].indexed then 1 else 0
  }

  /** The types of the arguments in the data payload, omitted or not. */
  function DataTypes(args: seq<Arg>): seq<Ty> {
    if args == [] then []
    else if args[0].indexed then DataTypes(args[1..])
    else [args[0].ty] + DataTypes(args[1..])
  }

  // ----- the three generators -----

  lemma {:induction false} PlanAt(args: seq<Arg>, topic: nat, word: nat, i: nat)
    requires i < |args|
    ensures PlanFrom(args, topic, word)[i] ==
            if args[i].omitted then Skipped
            else if args[i].indexed then FromTopic(topic + IndexedCount(args[..i]))
            else FromWord(word + TotalPlanWords(DataTypes(args[..i])))
    decreases |args|
  {
    hide PlanWords, TotalPlanWords;
    if i == 0 {
      NoHeads();
      assert args[..0] == [];
    } else {
      CountsCons(args, i);
      if args[0].indexed {
        PlanAt(args[1..], topic + 1, word, i - 1);
      } else {
        PlanAt(args[1..], topic, word + PlanWords(args[0].ty), i - 1);
        HeadsOfCons(args[0].ty, DataTypes(args[1..][..i - 1]));
      }
      hide IndexedCount, DataTypes;
    }
  }

  lemma CountsCons(args: seq<Arg>, i: nat)
    requires 0 < i <= |args|
    ensures IndexedCount(args[..i]) == IndexedCount(args[1..][..i - 1]) + if args[0].indexed then 1 else 0
    ensures var rest := DataTypes(args[1..][..i - 1]);
            DataTypes(args[..i]) == if args[0].indexed then rest else [args[0].ty] + rest
  {
    assert args[..i][1..] == args[1..][..i - 1];
  }

  lemma NoHeads()
    ensures TotalPlanWords([]) == TotalHeadWords([]) == 0
  {
  }

  lemma HeadsOfCons(t: Ty, ts: seq<Ty>)
    ensures TotalPlanWords([t] + ts) == PlanWords(t) + TotalPlanWords(ts)
  {
    assert ([t] + ts)[1..] == ts;
  }

  lemma {:induction false} CountsAdd(args: seq<Arg>, a: Arg)
    ensures IndexedCount(args + [a]) == IndexedCount(args) + if a.indexed then 1 else 0
    ensures DataTypes(args + [a]) == if a.indexed then DataTypes(args) else DataTypes(args) + [a.ty]
  {
    if args == [] {
      assert [] + [a] == [a] && [a][1..] == [];
    } else {
      CountsAdd(args[1..], a);
      assert (args + [a])[1..] == args[1..] + [a];
    }
  }

  /** What the generators' counters hold before argument i. */
  ghost predicate Counted(args: seq<Arg>, i: nat, topicIdx: nat, dataWord: nat)
    requires i <= |args|
  {
    topicIdx == 1 + IndexedCount(args[..i]) && dataWord == TotalPlanWords(DataTypes(args[..i]))
  }

  lemma CountsStart(args: seq<Arg>)
    ensures Counted(args, 0, 1, 0)
  {
    assert args[..0] == [];
  }

  lemma CountsStep(args: seq<Arg>, i: nat, topicIdx: nat, dataWord: nat)
    requires i < |args| && Counted(args, i, topicIdx, dataWord)
    ensures args[i].indexed ==> Counted(args, i + 1, topicIdx + 1, dataWord)
    ensures !args[i].indexed ==> Counted(args, i + 1, topicIdx, dataWord + PlanWords(args[i].ty))
    ensures Plan(args)[i] ==
            if args[i].omitted then Skipped else if args[i].indexed then FromTopic(topicIdx) else FromWord(dataWord)
  {
    CountsAdd(args[..i], args[i]);
    assert args[..i] + [args[i]] == args[..i + 1];
    if !args[i].indexed {
      TotalSnoc(DataTypes(args[..i]), args[i].ty);
    }
    PlanAt(args, 1, 0, i);
  }

  /** The unpacker generator: one loop counts the topics a log needs, a second assigns. */
  method UnpackerPlan(args: seq<Arg>) returns (plan: seq<Source>, requiredTopics: nat)
    ensures plan == Plan(args) && requiredTopics == 1 + IndexedCount(args)
  {
    hide Counted, Plan;
    PlanLength(args);
    CountsStart(args);
    requiredTopics := 1;
    var i: nat := 0;
    ghost var word: nat := 0;
    while i < |args|
      invariant i <= |args| && Counted(args, i, requiredTopics, word)
    {
      CountsStep(args, i, requiredTopics, word);
      if args[i].indexed {
        requiredTopics := requiredTopics + 1;
      } else {
        word := word + PlanWords(args[i].ty);
      }
      i := i + 1;
    }
    CountsEnd(args, requiredTopics, word);
    plan := [];
    var topicIdx: nat, dataWord: nat := 1, 0;
    i := 0;
    while i < |args|
      invariant i <= |args| && Counted(args, i, topicIdx, dataWord)
      invariant plan == Plan(args)[..i]
    {
      CountsStep(args, i, topicIdx, dataWord);
      var arg := args[i];
      i := i + 1;
      if arg.indexed {
        plan := plan + [if arg.omitted then Skipped else FromTopic(topicIdx)];
        topicIdx := topicIdx + 1;
        continue;
      }
      plan := plan + [if arg.omitted then Skipped else FromWord(dataWord)];
      dataWord := dataWord + PlanWords(arg.ty);
    }
  }

  lemma CountsEnd(args: seq<Arg>, topicIdx: nat, dataWord: nat)
    requires Counted(args, |args|, topicIdx, dataWord)
    ensures topicIdx == 1 + IndexedCount(args) && dataWord == TotalPlanWords(DataTypes(args))
  {
    assert args[..|args|] == args;
  }

  /** The column view generator. */
  method ViewPlan(args: seq<Arg>) returns (plan: seq<Source>)
    ensures plan == Plan(args)
  {
    hide Counted, Plan;
    plan := [];
    var topicIdx: nat, dataWord: nat, i: nat := 1, 0, 0;
    CountsStart(args);
    assert |Plan(args)| == |args| by {
      PlanLength(args);
    }
    while i < |args|
      invariant i <= |args| && Counted(args, i, topicIdx, dataWord) && |Plan(args)| == |args|
      invariant plan == Plan(args)[..i]
    {
      CountsStep(args, i, topicIdx, dataWord);
      if args[i].indexed {
        plan := plan + [if args[i].omitted then Skipped else FromTopic(topicIdx)];
        topicIdx := topicIdx + 1;
        i := i + 1;
        continue;
      }
      plan := plan + [if args[i].omitted then Skipped else FromWord(dataWord)];
      dataWord := dataWord + PlanWords(args[i].ty);
      i := i + 1;
    }
  }

  lemma PlanLength(args: seq<Arg>)
    ensures |Plan(args)| == |args|
  {
  }

  /** The parser generator works in two passes; headWords is the payload length it insists on. */
  method ParserPlan(args: seq<Arg>) returns (plan: seq<Source>, headWords: nat)
    ensures plan == Plan(args) && headWords == TotalPlanWords(DataTypes(args))
  {
    hide Counted, Plan;
    PlanLength(args);
    plan := seq(|args|, _ => Skipped);
    var tIdx: nat, i: nat := 1, 0;
    ghost var word: nat := 0;
    CountsStart(args);
    while i < |args|
      invariant i <= |args| && |plan| == |args| && Counted(args, i, tIdx, word)
      invariant forall j :: 0 <= j < |args| ==>
                  plan[j] == if j < i && args[j].indexed then Plan(args)[j] else Skipped
    {
      CountsStep(args, i, tIdx, word);
      if args[i].indexed {
        if !args[i].omitted {
          plan := plan[i := FromTopic(tIdx)];
        }
        tIdx := tIdx + 1;
      } else {
        word := word + PlanWords(args[i].ty);
      }
      i := i + 1;
    }
    headWords, i := 0, 0;
    ghost var topic: nat := 1;
    CountsStart(args);
    while i < |args|
      invariant i <= |args| && |plan| == |args| && Counted(args, i, topic, headWords)
      invariant forall j :: 0 <= j < |args| ==>
                  plan[j] == if j < i || args[j].indexed then Plan(args)[j] else Skipped
    {
      CountsStep(args, i, topic, headWords);
      if !args[i].indexed {
        if !args[i].omitted {
          plan := plan[i := FromWord(headWords)];
        }
        headWords := headWords + PlanWords(args[i].ty);
      } else {
        topic := topic + 1;
      }
      i := i + 1;
    }
    CountsEnd(args, topic, headWords);
  }

  // ----- when the plan's words are the standard's -----

  ghost predicate AllProper(args: seq<Arg>) {
    forall i :: 0 <= i < |args| ==> Proper(args[i].ty)
  }

  /** Every data argument before i, omitted or not, is of a type the generator counts right. */
  ghost predicate CountedBefore(args: seq<Arg>, i: nat)
    requires i <= |args|
  {
    forall j :: 0 <= j < i && !args[j].indexed ==> CountedRight(args[j].ty)
  }

  /** The word counted for position i is the standard's. */
  ghost predicate WordRight(args: seq<Arg>, i: nat)
    requires i <= |args|
  {
    TotalPlanWords(DataTypes(args[..i])) == TotalHeadWords(DataTypes(args[..i]))
  }

  lemma WordNext(args: seq<Arg>, i: nat)
    requires i < |args|
    ensures args[i].indexed ==> DataTypes(args[..i + 1]) == DataTypes(args[..i])
    ensures !args[i].indexed ==>
              && TotalPlanWords(DataTypes(args[..i + 1])) ==
                  TotalPlanWords(DataTypes(args[..i])) + PlanWords(args[i].ty)
              && TotalHeadWords(DataTypes(args[..i + 1])) ==
                  TotalHeadWords(DataTypes(args[..i])) + HeadWords(args[i].ty)
  {
    CountsAdd(args[..i], args[i]);
    assert args[..i] + [args[i]] == args[..i + 1];
    if !args[i].indexed {
      TotalSnoc(DataTypes(args[..i]), args[i].ty);
    }
  }

  lemma {:induction false} RightBefore(args: seq<Arg>, i: nat)
    requires AllProper(args) && i <= |args| && CountedBefore(args, i)
    ensures WordRight(args, i)
  {
    if i == 0 {
      assert args[..0] == [];
    } else {
      RightBefore(args, i - 1);
      WordNext(args, i - 1);
      PlanWordsRightIff(args[i - 1].ty);
    }
  }

  /** Between data arguments the counted word does not move. */
  lemma {:induction false} SameWords(args: seq<Arg>, a: nat, b: nat)
    requires a <= b <= |args| && forall j :: a <= j < b ==> args[j].indexed
    ensures DataTypes(args[..b]) == DataTypes(args[..a])
  {
    if a < b {
      SameWords(args, a, b - 1);
      WordNext(args, b - 1);
    }
  }

  lemma {:induction false} NextData(args: seq<Arg>, a: nat, i: nat) returns (m: nat)
    requires a <= i < |args| && !args[i].indexed
    ensures a <= m <= i && !args[m].indexed && forall j :: a <= j < m ==> args[j].indexed
    decreases i - a
  {
    if args[a].indexed {
      m := NextData(args, a + 1, i);
    } else {
      m := a;
    }
  }

  /**
   Every data argument is counted to its standard head word if and only if every data argument
   with another behind it, omitted or not, is of a type counted right.
   */
  lemma WordsRightIff(args: seq<Arg>)
    requires AllProper(args)
    ensures (forall i :: 0 <= i < |args| && !args[i].indexed ==> WordRight(args, i))
            <==> forall i :: 0 <= i < |args| && !args[i].indexed ==> CountedBefore(args, i)
  {
    if forall i :: 0 <= i < |args| && !args[i].indexed ==> CountedBefore(args, i) {
      forall i | 0 <= i < |args| && !args[i].indexed ensures WordRight(args, i) {
        RightBefore(args, i);
      }
    }
    if forall i :: 0 <= i < |args| && !args[i].indexed ==> WordRight(args, i) {
      forall i, j | 0 <= j < i < |args| && !args[i].indexed && !args[j].indexed ensures CountedRight(args[j].ty) {
        var m := NextData(args, j + 1, i);
        SameWords(args, j + 1, m);
        WordNext(args, j);
        assert WordRight(args, j) && WordRight(args, m);
        PlanWordsRightIff(args[j].ty);
      }
    }
  }

  // ----- unpacking by the plan -----

  /** Indexed scalars: like data words, except that any topic ending in a 1 byte is true. */
  function DecodeTopic(s: Scalar, topic: seq<Byte>): Option<Value>
    requires |topic| == 32
  {
    if s == Bool then Some(Flag(topic[31] == 1)) else DecodeScalar(s, topic)
  }

  lemma TopicRoundTrip(s: Scalar, v: Value)
    requires FitsScalar(s, v)
    ensures DecodeTopic(s, EncodeScalar(s, v)) == Some(v)
  {
    ScalarRoundTrip(s, v);
  }

  /** What the generator emits for an indexed argument: a decoder for scalars, else a comment. */
  function RenderedTopic(t: Ty): Rendering {
    if t.Single? then Decodes else if RootedInNumber(t) then IllTyped else Comment
  }

  /** What the emitted code does to one argument's field. */
  function Fetch(a: Arg, source: Source, topics: seq<seq<Byte>>, data: seq<Byte>): Field {
    match source
    case Skipped => Left
    case FromTopic(t) =>
      if RenderedTopic(a.ty) == IllTyped then Uncompiled
      else if RenderedTopic(a.ty) == Comment then Left
      else if t < |topics| && |topics[t]| == 32 then Outcome(DecodeTopic(a.ty.scalar, topics[t]))
      else Rejected
    case FromWord(w) => Read(a.ty, data, w)
  }

  /** Arguments that fit their types. */
  ghost predicate WellFormed(args: seq<Arg>, vs: seq<Value>) {
    |args| == |vs| && forall i :: 0 <= i < |args| ==> Fits(args[i].ty, vs[i])
  }

  /** The values travelling in the data payload. */
  function DataValues(args: seq<Arg>, vs: seq<Value>): seq<Value>
    requires |args| == |vs|
  {
    if args == [] then []
    else if args[0].indexed then DataValues(args[1..], vs[1..])
    else [vs[0]] + DataValues(args[1..], vs[1..])
  }

  /** The topic of an indexed value: its word if it is a scalar, else a hash of it. */
  function TopicOf(t: Ty, v: Value, hash: (Ty, Value) -> seq<Byte>): seq<Byte>
    requires Fits(t, v)
  {
    if t.Single? then EncodeScalar(t.scalar, v) else hash(t, v)
  }

  /** The topics of a log after topic 0, one per indexed argument. */
  function Topics(args: seq<Arg>, vs: seq<Value>, hash: (Ty, Value) -> seq<Byte>): seq<seq<Byte>>
    requires WellFormed(args, vs)
  {
    if args == [] then []
    else if args[0].indexed then [TopicOf(args[0].ty, vs[0], hash)] + Topics(args[1..], vs[1..], hash)
    else Topics(args[1..], vs[1..], hash)
  }

  lemma {:induction false} DataFits(args: seq<Arg>, vs: seq<Value>)
    requires WellFormed(args, vs)
    ensures AllFit(DataTypes(args), DataValues(args, vs))
  {
    hide Fits;
    if args != [] {
      DataFits(args[1..], vs[1..]);
    }
  }

  /** Argument i's place in the payload, or among the topics. */
  lemma {:induction false} PlaceOf(args: seq<Arg>, vs: seq<Value>, hash: (Ty, Value) -> seq<Byte>, i: nat)
    requires WellFormed(args, vs) && i < |args|
    ensures !args[i].indexed ==>
              var k := |DataTypes(args[..i])|;
              && k < |DataTypes(args)| == |DataValues(args, vs)|
              && DataTypes(args)[k] == args[i].ty && DataValues(args, vs)[k] == vs[i]
              && DataTypes(args)[..k] == DataTypes(args[..i])
    ensures args[i].indexed ==>
              var k := IndexedCount(args[..i]);
              k < |Topics(args, vs, hash)| && Topics(args, vs, hash)[k] == TopicOf(args[i].ty, vs[i], hash)
    decreases |args|
  {
    hide Fits, TopicOf;
    if i > 0 {
      assert args[..i][1..] == args[1..][..i - 1];
      PlaceOf(args[1..], vs[1..], hash, i - 1);
      DataFits(args[1..], vs[1..]);
    } else {
      assert args[..0] == [];
      DataFits(args, vs);
    }
  }

  /** The payload of a log by the standard. */
  function Payload(args: seq<Arg>, vs: seq<Value>): seq<Byte>
    requires WellFormed(args, vs)
  {
    DataFits(args, vs);
    Tuple(DataTypes(args), DataValues(args, vs))
  }

  /** The arguments that are decoded: indexed scalars, and data of a decoded type. */
  predicate Supported(a: Arg) {
    if a.indexed then a.ty.Single? else Decoded(a.ty)
  }

  /**
   Unpacking a standard log by the plan: an indexed argument, or one counted to its standard
   word, gets its value exactly when it is not omitted and its type is supported; other fields
   are left alone, unless an array of numbers makes code that does not compile.  Omitting
   arguments is a projection.
   */
  lemma UnpackInvertsEncode(
      args: seq<Arg>, vs: seq<Value>, topic0: seq<Byte>, hash: (Ty, Value) -> seq<Byte>, i: nat)
    requires WellFormed(args, vs) && i < |args| && |Payload(args, vs)| < TWO_64
    requires !args[i].indexed ==> WordRight(args, i)
    ensures Fetch(args[i], Plan(args)[i], [topic0] + Topics(args, vs, hash), Payload(args, vs))
            == if args[i].omitted then Left
               else if Supported(args[i]) then Set(vs[i])
               else if Innermost(args[i].ty) == Single(Word256) then Uncompiled
               else Left
  {
    hide Fits, Read, DecodeTopic, Topics, Payload, Innermost, Decoded, IndexedCount, DataTypes;
    PlanAt(args, 1, 0, i);
    if args[i].omitted {
    } else if args[i].indexed {
      FetchesTopic(args, vs, topic0, hash, i);
    } else {
      FetchesWord(args, vs, hash, i);
    }
  }

  lemma FetchesWord(args: seq<Arg>, vs: seq<Value>, hash: (Ty, Value) -> seq<Byte>, i: nat)
    requires WellFormed(args, vs) && i < |args| && |Payload(args, vs)| < TWO_64
    requires !args[i].indexed && WordRight(args, i)
    ensures Read(args[i].ty, Payload(args, vs), TotalPlanWords(DataTypes(args[..i]))) == Expected(args[i].ty, vs[i])
  {
    hide Fits, Tuple, Read, AllFit, Topics, Payload, Expected;
    DataFits(args, vs);
    PlaceOf(args, vs, hash, i);
    PayloadIs(args, vs);
    ReadInvertsEncode(DataTypes(args), DataValues(args, vs), |DataTypes(args[..i])|);
  }

  lemma PayloadIs(args: seq<Arg>, vs: seq<Value>)
    requires WellFormed(args, vs)
    ensures AllFit(DataTypes(args), DataValues(args, vs))
    ensures Payload(args, vs) == Tuple(DataTypes(args), DataValues(args, vs))
  {
    DataFits(args, vs);
  }

  lemma FetchesTopic(
      args: seq<Arg>, vs: seq<Value>, topic0: seq<Byte>, hash: (Ty, Value) -> seq<Byte>, i: nat)
    requires WellFormed(args, vs) && i < |args| && args[i].indexed
    ensures Fetch(args[i], FromTopic(1 + IndexedCount(args[..i])), [topic0] + Topics(args, vs, hash), Payload(args, vs))
            == if args[i].ty.Single? then Set(vs[i])
               else if Innermost(args[i].ty) == Single(Word256) then Uncompiled
               else Left
  {
    hide Fits, DecodeTopic, Topics, Payload;
    PlaceOf(args, vs, hash, i);
    RootIsInnermost(args[i].ty);
    if args[i].ty.Single? {
      var k := IndexedCount(args[..i]);
      assert ([topic0] + Topics(args, vs, hash))[1 + k] == Topics(args, vs, hash)[k];
      FitsSingle(args[i].ty, vs[i]);
      TopicRoundTrip(args[i].ty.scalar, vs[i]);
      hide EncodeScalar;
    }
  }

  lemma FitsSingle(t: Ty, v: Value)
    requires t.Single? && Fits(t, v)
    ensures FitsScalar(t.scalar, v)
  {
  }

  /**
   An event whose indexed arguments are scalars, and whose other arguments are scalars, byte
   strings, fixed arrays of scalars or dynamic arrays of them but bytesN[], is recovered
   whole: such types are counted right.
   */
  lemma SupportedEventsRoundTrip(args: seq<Arg>, vs: seq<Value>, topic0: seq<Byte>, hash: (Ty, Value) -> seq<Byte>)
    requires WellFormed(args, vs) && AllProper(args) && |Payload(args, vs)| < TWO_64
    requires forall i :: 0 <= i < |args| ==>
               match args[i].ty
               case Single(_) => true
               case Blob => !args[i].indexed
               case FixedOf(e, _) => !args[i].indexed && e.Single?
               case ArrayOf(e) => !args[i].indexed && e.Single? && !e.scalar.BytesN?
    ensures forall i :: 0 <= i < |args| ==>
              Fetch(args[i], Plan(args)[i], [topic0] + Topics(args, vs, hash), Payload(args, vs))
              == if args[i].omitted then Left else Set(vs[i])
  {
    forall i | 0 <= i < |args|
      ensures Fetch(args[i], Plan(args)[i], [topic0] + Topics(args, vs, hash), Payload(args, vs))
              == if args[i].omitted then Left else Set(vs[i])
    {
      assert forall j :: 0 <= j <= i ==> Supported(args[j]);
      RightBefore(args, i);
      UnpackInvertsEncode(args, vs, topic0, hash, i);
    }
  }

  /** A topic is always a bool, true exactly when it is 1 modulo 256; a data word is one only if
      it is 0 or 1, and then the two agree. */
  lemma TopicBools(word: seq<Byte>)
    requires |word| == 32
    ensures DecodeTopic(Bool, word) == Some(Flag(Num(word) % 256 == 1))
    ensures DecodeScalar(Bool, word) == if Num(word) <= 1 then DecodeTopic(Bool, word) else None
  {
    assert Num(word) == Num(word[..31]) * 256 + word[31];
  }
}
