/** The cloud node's directory of artifacts. Every file operation of the original is one
    atomic step: a write that replaces a whole file, or an unlink. */
module Store {
  import opened Contracts

  /** What reading one inbox file yields: no JSON object, an object that fails the
      signature, schema or identity check, or a verified result. */
  datatype InboxFile =
    | NotJson
    | Unverified(claimedInput: Id)
    | Verified(result: AnalysisResult)

  datatype Aged<T> = Aged(value: T, mtime: Time)

  datatype Receipt = Receipt(resultId: Id, inputId: Id, acceptedAt: Time, publishedAt: Option<Time>)

  datatype Envelope = Envelope(result: AnalysisResult, receipt: Receipt)

  datatype Detail = Detail(advice: Advice, receipt: Receipt)

  datatype Reason =
    | NotReadable | FilenameMismatch | InputMissing | FutureResult | PredatesInput | CommitDiffers
    | WrongMarket | WrongDelay | WrongCost | MustBeNoView | PreviousInputMissing

  datatype Rejection = Rejection(name: Id, reason: Reason)

  datatype AcceptStatus = AcceptStatus(checkedAt: Time, accepted: seq<Id>, rejected: seq<Rejection>)

  /** File names in inputs/ and results/ never collide: their prefixes differ. */
  datatype Name = InputName(id: Id) | ResultName(id: Id)

  /** A digest names content: hashing is collision-free, so the content stands for it. */
  datatype Content = InputContent(input: InputSnapshot) | ResultContent(result: AnalysisResult)

  datatype Kind = Inputs | Results | OtherKind

  datatype AckEntry = AckEntry(kind: Kind, name: Name, digest: Content)

  datatype RetentionRecord = RetentionRecord(entry: AckEntry, removedAt: Time, ackAt: Time)

  /** A result that was published, with the generation time of the input it rests on. */
  datatype Publication = Publication(envelope: Envelope, inputTime: Time)

  /** `log` lists every value publication.json has ever held, oldest first. */
  datatype Store = Store(
    inputs: map<Id, Aged<InputSnapshot>>,
    inbox: map<Id, InboxFile>,
    results: map<Id, Aged<AnalysisResult>>,
    receipts: map<Id, Receipt>,
    details: map<Id, Aged<Detail>>,
    retained: map<Name, RetentionRecord>,
    currentInput: Option<InputSnapshot>,
    current: Option<AnalysisResult>,
    publication: Option<Envelope>,
    acceptStatus: Option<AcceptStatus>,
    publicationList: seq<Receipt>,
    log: seq<Publication>)

  /** One atomic step on the directory; `at` is the modification time it leaves. */
  datatype Step =
    | WriteInput(input: InputSnapshot, at: Time)
    | WriteCurrentInput(input: InputSnapshot)
    | Deliver(name: Id, file: InboxFile)
    | WriteResult(name: Id, result: AnalysisResult, at: Time)
    | Commit(envelope: Envelope, inputTime: Time)
    | WriteDetail(detail: Detail, at: Time)
    | WriteCurrent(result: AnalysisResult)
    | WriteReceipt(name: Id, receipt: Receipt)
    | RemoveInbox(name: Id)
    | WriteAcceptStatus(status: AcceptStatus)
    | WritePublicationList(receipts: seq<Receipt>)
    | WriteRetention(record: RetentionRecord)
    | RemoveDetail(adviceId: Id)
    | RemoveReceipt(name: Id)
    | RemoveResult(name: Id)
    | RemoveInput(name: Id)

  function Apply(s: Store, step: Step): Store {
    match step
    case WriteInput(input, at) => s.(inputs := s.inputs[input.id := Aged(input, at)])
    case WriteCurrentInput(input) => s.(currentInput := Some(input))
    case Deliver(name, file) => s.(inbox := s.inbox[name := file])
    case WriteResult(name, result, at) => s.(results := s.results[name := Aged(result, at)])
    case Commit(envelope, inputTime) =>
      s.(publication := Some(envelope), log := s.log + [Publication(envelope, inputTime)])
    case WriteDetail(detail, at) => s.(details := s.details[detail.advice.id := Aged(detail, at)])
    case WriteCurrent(result) => s.(current := Some(result))
    case WriteReceipt(name, receipt) => s.(receipts := s.receipts[name := receipt])
    case RemoveInbox(name) => s.(inbox := s.inbox - {name})
    case WriteAcceptStatus(status) => s.(acceptStatus := Some(status))
    case WritePublicationList(receipts) => s.(publicationList := receipts)
    case WriteRetention(record) => s.(retained := s.retained[record.entry.name := record])
    case RemoveDetail(adviceId) => s.(details := s.details - {adviceId})
    case RemoveReceipt(name) => s.(receipts := s.receipts - {name})
    case RemoveResult(name) => s.(results := s.results - {name})
    case RemoveInput(name) => s.(inputs := s.inputs - {name})
  }

  function ApplyAll(s: Store, steps: seq<Step>): Store
    decreases |steps|
  {
    if steps == [] then s else ApplyAll(Apply(s, steps[0]), steps[1..])
  }

  lemma {:induction false} ApplyAllConcat(s: Store, a: seq<Step>, b: seq<Step>)
    ensures ApplyAll(s, a + b) == ApplyAll(ApplyAll(s, a), b)
    decreases |a|
  {
    if a == [] {
      assert a + b == b;
    } else {
      assert (a + b)[0] == a[0] && (a + b)[1..] == a[1..] + b;
      ApplyAllConcat(Apply(s, a[0]), a[1..], b);
    }
  }

  lemma ApplyAllThree(s: Store, a: seq<Step>, b: seq<Step>, c: seq<Step>)
    ensures ApplyAll(s, a + b + c) == ApplyAll(ApplyAll(ApplyAll(s, a), b), c)
  {
    ApplyAllConcat(s, a, b);
    ApplyAllConcat(s, a + b, c);
  }

  lemma ApplyTwo(s: Store, a: Step, b: Step)
    ensures ApplyAll(s, [a, b]) == Apply(Apply(s, a), b)
  {
    assert [a, b] == [a] + [b] && [a][1..] == [] && [b][1..] == [];
    ApplyAllConcat(s, [a], [b]);
  }

  lemma ApplyOne(s: Store, steps: seq<Step>)
    requires steps != []
    ensures ApplyAll(s, steps[..1]) == Apply(s, steps[0])
  {
    assert steps[..1] == [steps[0]] && [steps[0]][1..] == [];
  }

  lemma ApplySplit(s: Store, steps: seq<Step>, p: nat, k: nat)
    requires p <= k <= |steps|
    ensures ApplyAll(s, steps[..k]) == ApplyAll(ApplyAll(s, steps[..p]), steps[p..][..k - p])
  {
    assert steps[..k] == steps[..p] + steps[p..][..k - p];
    ApplyAllConcat(s, steps[..p], steps[p..][..k - p]);
  }

  /** Every store along a path of steps is good, the first and the last one included. */
  ghost predicate Along(s: Store, steps: seq<Step>, good: Store -> bool)
    decreases |steps|
  {
    good(s) && (steps != [] ==> Along(Apply(s, steps[0]), steps[1..], good))
  }

  lemma {:induction false} AlongPrefix(s: Store, steps: seq<Step>, k: nat, good: Store -> bool)
    requires Along(s, steps, good) && k <= |steps|
    ensures good(ApplyAll(s, steps[..k]))
    decreases k
  {
    if k > 0 {
      assert steps[..k][1..] == steps[1..][..k - 1];
      AlongPrefix(Apply(s, steps[0]), steps[1..], k - 1, good);
    }
  }

  lemma {:induction false} AlongConcat(s: Store, a: seq<Step>, b: seq<Step>, good: Store -> bool)
    requires Along(s, a, good) && Along(ApplyAll(s, a), b, good)
    ensures Along(s, a + b, good)
    decreases |a|
  {
    if a == [] {
      assert a + b == b;
    } else {
      assert (a + b)[0] == a[0] && (a + b)[1..] == a[1..] + b;
      AlongConcat(Apply(s, a[0]), a[1..], b, good);
    }
  }

  lemma AlongStep(s: Store, step: Step, rest: seq<Step>, good: Store -> bool)
    requires good(s) && Along(Apply(s, step), rest, good)
    ensures Along(s, [step] + rest, good) && ApplyAll(s, [step] + rest) == ApplyAll(Apply(s, step), rest)
  {
    assert ([step] + rest)[1..] == rest;
  }

  lemma AlongThree(s: Store, a: seq<Step>, b: seq<Step>, c: seq<Step>, good: Store -> bool)
    requires Along(s, a, good) && Along(ApplyAll(s, a), b, good) && Along(ApplyAll(ApplyAll(s, a), b), c, good)
    ensures Along(s, a + b + c, good)
  {
    AlongConcat(s, a, b, good);
    ApplyAllConcat(s, a, b);
    AlongConcat(s, a + b, c, good);
  }

  lemma AlongEnd(s: Store, steps: seq<Step>, good: Store -> bool)
    requires Along(s, steps, good)
    ensures good(ApplyAll(s, steps))
  {
    AlongPrefix(s, steps, |steps|, good);
    assert steps[..|steps|] == steps;
  }

  /** The store after the first `k` steps, or after all of them. */
  ghost function Stopped(s: Store, steps: seq<Step>, k: nat): Store {
    ApplyAll(s, if k <= |steps| then steps[..k] else steps)
  }

  lemma AlongStopped(s: Store, steps: seq<Step>, p: nat, k: nat, good: Store -> bool)
    requires p <= |steps| && p <= k && Along(ApplyAll(s, steps[..p]), steps[p..], good)
    ensures good(Stopped(s, steps, k))
  {
    var done := if k <= |steps| then k else |steps|;
    assert steps[..|steps|] == steps;
    ApplySplit(s, steps, p, done);
    AlongPrefix(ApplyAll(s, steps[..p]), steps[p..], done - p, good);
  }

  lemma AlongAppend(s: Store, steps: seq<Step>, step: Step, good: Store -> bool)
    requires Along(s, steps, good) && good(Apply(ApplyAll(s, steps), step))
    ensures Along(s, steps + [step], good)
    ensures ApplyAll(s, steps + [step]) == Apply(ApplyAll(s, steps), step)
  {
    AlongEnd(s, steps, good);
    var last := Apply(ApplyAll(s, steps), step);
    assert Along(last, [], good);
    AlongStep(ApplyAll(s, steps), step, [], good);
    assert [step] + [] == [step];
    AlongConcat(s, steps, [step], good);
    ApplyAllConcat(s, steps, [step]);
  }

  lemma OnlyStep(s: Store, step: Step, good: Store -> bool)
    requires good(s) && good(Apply(s, step))
    ensures Along(s, [step], good) && ApplyAll(s, [step]) == Apply(s, step)
  {
    assert Along(Apply(s, step), [], good);
    AlongStep(s, step, [], good);
    assert [step] + [] == [step];
  }

  lemma {:induction false} AlongMono(s: Store, steps: seq<Step>, good: Store -> bool, better: Store -> bool)
    requires Along(s, steps, good) && forall x :: good(x) ==> better(x)
    ensures Along(s, steps, better)
    decreases |steps|
  {
    if steps != [] {
      AlongMono(Apply(s, steps[0]), steps[1..], good, better);
    }
  }

  function MinId(ids: set<Id>): (least: Id)
    requires ids != {}
    ensures least in ids && forall id :: id in ids ==> least <= id
  {
    LeastExists(ids);
    var least: Id :| least in ids && forall id :: id in ids ==> least <= id;
    least
  }

  lemma {:induction false} LeastExists(ids: set<Id>)
    requires ids != {}
    ensures exists least :: least in ids && forall id :: id in ids ==> least <= id
    decreases |ids|
  {
    var x :| x in ids;
    var rest := ids - {x};
    var least := x;
    if rest != {} {
      LeastExists(rest);
      var y :| y in rest && forall id :: id in rest ==> y <= id;
      least := if x <= y then x else y;
    }
    forall id | id in ids ensures least <= id {
      assert id == x || id in rest;
    }
  }

  /** File names in the order `sorted(glob(...))` yields: fixed-width digests sort as numbers. */
  function SortedIds(ids: set<Id>): (names: seq<Id>)
    ensures forall id :: id in names <==> id in ids
    ensures forall i, j :: 0 <= i < j < |names| ==> names[i] < names[j]
    decreases |ids|
  {
    if ids == {} then []
    else
      var least := MinId(ids);
      [least] + SortedIds(ids - {least})
  }
}
