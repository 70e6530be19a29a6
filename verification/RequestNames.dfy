/** Names of reconcile requests: the event handlers write "generate#kind#name" and the
    reconciler tells the kinds apart by substring and splits the name off again. */
module RequestNames {
  import opened Text

  datatype Kind = VirtualMachineInstance | StatefulSet

  const PREFIX := "generate"
  const MARK := '#'

  function KindName(k: Kind): string {
    match k
    case VirtualMachineInstance => "VirtualMachineInstance"
    case StatefulSet => "StatefulSet"
  }

  /** What the reconciler looks for in the name of a request. */
  function Needle(k: Kind): string { PREFIX + [MARK] + KindName(k) }

  function Format(k: Kind, name: string): string { Needle(k) + [MARK] + name }

  datatype Features = Features(vmi: bool, statefulSet: bool) {
    predicate Enabled(k: Kind) { if k == VirtualMachineInstance then vmi else statefulSet }
  }

  /** What is done with a request: a generated one is for one workload of its kind; a bare
      one is for whichever workload of that name exists. */
  datatype Dispatched =
    | Disabled(kind: Kind)
    | Malformed(kind: Kind)
    | Workload(kind: Kind, name: string)
    | Bare(name: string)

  function DispatchAs(k: Kind, req: string, features: Features): Dispatched {
    if !features.Enabled(k) then Disabled(k)
    else
      var arr := Split(req, MARK);
      if |arr| != 3 then Malformed(k) else Workload(k, arr[2])
  }

  function Dispatch(req: string, features: Features): Dispatched {
    if Contains(req, Needle(VirtualMachineInstance)) then DispatchAs(VirtualMachineInstance, req, features)
    else if Contains(req, Needle(StatefulSet)) then DispatchAs(StatefulSet, req, features)
    else Bare(req)
  }

  function Count(s: string, c: char): nat { if s == "" then 0 else (if s[0] == c then 1 else 0) + Count(s[1..], c) }

  lemma {:induction false} CountConcat(a: string, b: string, c: char)
    ensures Count(a + b, c) == Count(a, c) + Count(b, c)
  {
    if a == "" {
      assert a + b == b;
    } else {
      CountConcat(a[1..], b, c);
      assert (a + b)[1..] == a[1..] + b;
    }
  }

  lemma {:induction false} CountNone(s: string, c: char)
    ensures Count(s, c) == 0 <==> c !in s
  {
    if s != "" { CountNone(s[1..], c); }
  }

  /** Splitting yields one piece more than there are marks. */
  lemma {:induction false} SplitCount(s: string, c: char)
    ensures |Split(s, c)| == Count(s, c) + 1
    decreases |s|
  {
    var i := Index(s, c);
    if i == -1 {
      CountNone(s, c);
    } else {
      SplitCount(s[i + 1..], c);
      Cut(s, i);
      CountNone(s[..i], c);
      CountConcat(s[..i] + [c], s[i + 1..], c);
      CountConcat(s[..i], [c], c);
    }
  }

  lemma FormatSplits(k: Kind, name: string)
    ensures Split(Format(k, name), '#') ==
      ["generate", if k == StatefulSet then "StatefulSet" else "VirtualMachineInstance"] + Split(name, '#')
  {
    hide Split;
    var kind := KindName(k);
    assert Format(k, name) == PREFIX + [MARK] + (kind + [MARK] + name);
    SplitCons(PREFIX, kind + [MARK] + name, MARK);
    SplitCons(kind, name, MARK);
  }

  lemma FormatHasNeedle(k: Kind, name: string)
    ensures Contains(Format(k, name), Needle(k))
  {
    assert OccursAt(Format(k, name), Needle(k), 0);
  }

  /** A StatefulSet's request never contains a virtual machine's needle. */
  lemma StatefulSetIsNoVmi(name: string)
    requires MARK !in name
    ensures !Contains(Format(StatefulSet, name), Needle(VirtualMachineInstance))
  {
    forall i ensures !OccursAt(Format(StatefulSet, name), Needle(VirtualMachineInstance), i) { NoVmiAt(name, i); }
  }

  lemma NoVmiAt(name: string, i: int)
    requires MARK !in name
    ensures !OccursAt(Format(StatefulSet, name), Needle(VirtualMachineInstance), i)
  {
    var s, sub := Format(StatefulSet, name), Needle(VirtualMachineInstance);
    assert |Needle(StatefulSet)| == 20 && |sub| == 31 && sub[8] == MARK && sub[9] == 'V' && sub[0] == 'g';
    if 0 <= i <= |s| - |sub| {
      var piece := s[i..i + |sub|];
      assert piece[0] == s[i] && piece[8] == s[i + 8] && piece[9] == s[i + 9];
      assert i + 8 > 20 ==> s[i + 8] == name[i + 8 - 21];
    }
  }

  /** The name that the event handler prints is read back with its kind, exactly when the
      workload's name has no mark; a name with one is dropped as malformed. */
  lemma RoundTripIff(k: Kind, name: string, features: Features)
    requires features.Enabled(k)
    ensures Dispatch(Format(k, name), features) == Workload(k, name) <==> MARK !in name
  {
    hide Split; hide Contains; hide Format;
    FormatHasNeedle(k, name);
    FormatSplits(k, name);
    SplitCount(name, MARK);
    CountNone(name, MARK);
    var s := Format(k, name);
    if MARK !in name {
      assert Split(name, MARK) == [name] by { SplitNothing(name, MARK); }
      if k == StatefulSet { StatefulSetIsNoVmi(name); }
      assert Split(s, MARK) == [PREFIX, KindName(k), name];
    } else {
      assert |Split(s, MARK)| > 3;
    }
  }

  /** A generated request is never taken for one of the other kind, and different workloads
      have different requests. */
  lemma NeverCrossed(k: Kind, name: string, other: Kind, otherName: string, features: Features)
    requires MARK !in name && MARK !in otherName
    ensures Dispatch(Format(k, name), features) in {Workload(k, name), Disabled(k)}
    ensures Format(k, name) == Format(other, otherName) <==> k == other && name == otherName
  {
    hide Split; hide Contains; hide Format;
    FormatHasNeedle(k, name);
    if k == StatefulSet { StatefulSetIsNoVmi(name); }
    FormatSplits(k, name);
    FormatSplits(other, otherName);
    SplitNothing(name, MARK);
    SplitNothing(otherName, MARK);
    assert KindName(VirtualMachineInstance)[0] != KindName(StatefulSet)[0];
    var a, b := Split(Format(k, name), MARK), Split(Format(other, otherName), MARK);
    assert a == [PREFIX, KindName(k), name] && b == [PREFIX, KindName(other), otherName];
    assert a == b ==> a[1] == b[1] && a[2] == b[2];
  }

  /** The name of an object itself is never taken for a generated request. */
  lemma ObjectNameIsBare(name: string, features: Features)
    requires MARK !in name
    ensures Dispatch(name, features) == Bare(name)
  {
    forall k: Kind, i ensures !OccursAt(name, Needle(k), i) {
      assert Needle(k)[8] == MARK;
      if 0 <= i <= |name| - |Needle(k)| { assert name[i..i + |Needle(k)|][8] == name[i + 8]; }
    }
  }

  /** The workload whose reconcile a request runs, if any: a bare name is looked up as a
      virtual machine first, so it shadows a StatefulSet of its name. */
  method Reconcile(req: string, features: Features, vmis: set<string>, statefulSets: set<string>)
    returns (ran: bool, kind: Kind, name: string)
    ensures ran ==> features.Enabled(kind) && name in (if kind == VirtualMachineInstance then vmis else statefulSets)
    ensures match Dispatch(req, features)
      case Workload(k, n) =>
        if n in (if k == VirtualMachineInstance then vmis else statefulSets) then ran && kind == k && name == n
          else !ran
      case Bare(n) =>
        if features.vmi && n in vmis then ran && kind == VirtualMachineInstance && name == n
        else if features.statefulSet && n in statefulSets then ran && kind == StatefulSet && name == n
        else !ran
      case _ => !ran
  {
    ran, kind, name := false, VirtualMachineInstance, "";
    if Contains(req, PREFIX + [MARK] + KindName(VirtualMachineInstance)) {
      if !features.vmi { return; }
      var arr := Split(req, MARK);
      if |arr| != 3 { return; }
      if arr[2] !in vmis { return; }
      return true, VirtualMachineInstance, arr[2];
    }
    if Contains(req, PREFIX + [MARK] + KindName(StatefulSet)) {
      if !features.statefulSet { return; }
      var arr := Split(req, MARK);
      if |arr| != 3 { return; }
      if arr[2] !in statefulSets { return; }
      return true, StatefulSet, arr[2];
    }
    if features.vmi {
      if req in vmis { return true, VirtualMachineInstance, req; }
    }
    if features.statefulSet {
      if req in statefulSets { return true, StatefulSet, req; }
    }
  }
}
