/**
 * The admission decision of the required-labels policy: a Pod must carry the
 * label keys "owner" and "cost-center"; any object that is not a Pod is let
 * through (fail-open). Only the presence of a key is checked, never its value.
 */
module Policy {

  import opened Wrappers
  import opened DebugFormat

  /**
   * The request object as the deserialisation step sees it: it either does
   * not read as a Pod, or it is a Pod whose `metadata.labels` may be absent.
   */
  datatype AdmissionObject = NotAPod | Pod(labels: Option<map<string, string>>)

  /** The answer to the host: accept, or reject with a message. No mutated object is ever part of it. */
  datatype Decision = Accept | Reject(message: string)

  /** The label keys every Pod must carry, in the order they are reported. */
  const RequiredLabels: seq<string> := ["owner", "cost-center"]

  /** Both hard-coded keys print unchanged in a Debug rendering. */
  lemma RequiredLabelsRenderable()
    ensures Renderable(RequiredLabels)
  {
    assert NoDebugEscape("owner");
    assert NoDebugEscape("cost-center");
  }

  ghost predicate Distinct(s: seq<string>)
  {
    forall i, j :: 0 <= i < j < |s| ==> s[i] != s[j]
  }

  /** `s` can be obtained from `t` by deleting elements, order kept (matched greedily from the end). */
  ghost predicate IsSubsequence(s: seq<string>, t: seq<string>)
    decreases |t|
  {
    if s == [] then true
    else if t == [] then false
    else if s[|s| - 1] == t[|t| - 1] then IsSubsequence(s[..|s| - 1], t[..|t| - 1])
    else IsSubsequence(s, t[..|t| - 1])
  }

  /** The keys of `required`, in order, for which `podLabels` has no entry. */
  function AbsentKeys(required: seq<string>, podLabels: map<string, string>): (r: seq<string>)
    ensures |r| <= |required|
    ensures forall k :: k in r ==> k in required && k !in podLabels
  {
    if required == [] then []
    else
      var last := required[|required| - 1];
      AbsentKeys(required[..|required| - 1], podLabels) + (if last in podLabels then [] else [last])
  }

  /** The missing labels: every required key when the Pod has no labels map at all. */
  function MissingLabels(required: seq<string>, labels: Option<map<string, string>>): (r: seq<string>)
    ensures |r| <= |required|
    ensures forall k :: k in r ==> k in required
    ensures labels.Some? ==> forall k :: k in r ==> k !in labels.value
  {
    match labels
    case None => required
    case Some(podLabels) => AbsentKeys(required, podLabels)
  }

  /** The singular message for one key, with the Debug rendering written out. */
  lemma SingularMessageText(a: string)
    requires NoDebugEscape(a)
    ensures "pod label " + DebugList([a]) + " is required" == "pod label [\"" + a + "\"] is required"
  {
    DebugListOne(a);
    var q := "\"" + a + "\"";
    assert "pod label " + ("[" + q + "]") + " is required" == ("pod label " + "[") + q + ("]" + " is required");
  }

  /** The plural message for two keys, with the Debug rendering written out. */
  lemma PluralMessageText(a: string, b: string)
    requires NoDebugEscape(a) && NoDebugEscape(b)
    ensures "pod labels " + DebugList([a, b]) + " are required" == "pod labels [\"" + a + "\", \"" + b + "\"] are required"
  {
    DebugListTwo(a, b);
  }

  /** The rejection message: singular for one missing label, plural otherwise. */
  function RejectionMessage(missing: seq<string>): (r: string)
    requires Renderable(missing)
    ensures |missing| == 1 ==> r == "pod label [\"" + missing[0] + "\"] is required"
    ensures |missing| == 2 ==> r == "pod labels [\"" + missing[0] + "\", \"" + missing[1] + "\"] are required"
  {
    if |missing| == 1 then
      SingularMessageText(missing[0]);
      assert missing == [missing[0]];
      "pod label " + DebugList(missing) + " is required"
    else
      assert |missing| == 2 ==>
        "pod labels " + DebugList(missing) + " are required" ==
        "pod labels [\"" + missing[0] + "\", \"" + missing[1] + "\"] are required"
      by {
        if |missing| == 2 {
          assert missing == [missing[0], missing[1]];
          PluralMessageText(missing[0], missing[1]);
        }
      }
      "pod labels " + DebugList(missing) + " are required"
  }

  /** The decision for a given list of required keys. */
  function DecideWith(required: seq<string>, obj: AdmissionObject): (r: Decision)
    requires Renderable(required)
    ensures r.Accept? <==> obj.NotAPod? || MissingLabels(required, obj.labels) == []
  {
    match obj
    case NotAPod => Accept
    case Pod(labels) =>
      var missing := MissingLabels(required, labels);
      if missing != [] then Reject(RejectionMessage(missing)) else Accept
  }

  /** The policy's decision, with its hard-coded required keys. */
  function Decide(obj: AdmissionObject): (r: Decision)
    ensures obj.NotAPod? ==> r == Accept
    ensures r == Accept <==>
      obj.NotAPod? || (obj.labels.Some? && "owner" in obj.labels.value && "cost-center" in obj.labels.value)
  {
    RequiredLabelsRenderable();
    MissingRequiredLabels(if obj.Pod? then obj.labels else None);
    DecideWith(RequiredLabels, obj)
  }

  /** Builds the missing-label list step by step: wholesale when there is no labels map, else by a loop. */
  method CollectMissing(required: seq<string>, labels: Option<map<string, string>>) returns (missing: seq<string>)
    ensures missing == MissingLabels(required, labels)
  {
    missing := [];
    match labels {
      case None =>
        missing := required;
      case Some(podLabels) =>
        for i := 0 to |required|
          invariant missing == AbsentKeys(required[..i], podLabels)
        {
          assert required[..i + 1][..i] == required[..i];
          if required[i] !in podLabels {
            missing := missing + [required[i]];
          }
        }
        assert required[..|required|] == required;
    }
  }

  /** Handles one admission request. */
  method Validate(obj: AdmissionObject) returns (d: Decision)
    ensures d == Decide(obj)
    ensures obj.NotAPod? ==> d == Accept
  {
    match obj {
      case NotAPod =>
        d := Accept;
      case Pod(labels) =>
        var missing := CollectMissing(RequiredLabels, labels);
        RequiredLabelsRenderable();
        if missing != [] {
          d := Reject(RejectionMessage(missing));
          return;
        }
        d := Accept;
    }
  }

  // ---------------------------------------------------------------------------
  // Properties of the missing-label list, for any list of required keys
  // ---------------------------------------------------------------------------

  /** A key is reported missing exactly when it is required and the labels map has no entry for it. */
  lemma {:induction false} AbsentKeysMembership(required: seq<string>, podLabels: map<string, string>, k: string)
    ensures k in AbsentKeys(required, podLabels) <==> k in required && k !in podLabels
  {
    if required != [] {
      var init := required[..|required| - 1];
      AbsentKeysMembership(init, podLabels, k);
      assert required == init + [required[|required| - 1]];
    }
  }

  /** The missing list keeps the order of the required list. */
  lemma {:induction false} AbsentKeysIsSubsequence(required: seq<string>, podLabels: map<string, string>)
    ensures IsSubsequence(AbsentKeys(required, podLabels), required)
  {
    if required != [] {
      var init := required[..|required| - 1];
      var last := required[|required| - 1];
      var rest := AbsentKeys(init, podLabels);
      AbsentKeysIsSubsequence(init, podLabels);
      if last in podLabels {
        if rest != [] {
          assert rest[|rest| - 1] in rest;
          assert rest[|rest| - 1] != last;
          assert required[..|required| - 1] == init;
        }
        assert AbsentKeys(required, podLabels) == rest;
      } else {
        assert (rest + [last])[..|rest|] == rest;
      }
    }
  }

  /** A required list without repeats gives a missing list without repeats. */
  lemma {:induction false} AbsentKeysDistinct(required: seq<string>, podLabels: map<string, string>)
    requires Distinct(required)
    ensures Distinct(AbsentKeys(required, podLabels))
  {
    if required != [] {
      var init := required[..|required| - 1];
      var last := required[|required| - 1];
      AbsentKeysDistinct(init, podLabels);
      if last !in podLabels {
        var rest := AbsentKeys(init, podLabels);
        AbsentKeysMembership(init, podLabels, last);
        assert last !in init;
        var r := rest + [last];
        forall i, j | 0 <= i < j < |r| ensures r[i] != r[j] {
          if j == |rest| {
            assert r[i] in rest;
          }
        }
      }
    }
  }

  /** Only which required keys are present matters, not the values or the other keys. */
  lemma {:induction false} AbsentKeysPresenceOnly(required: seq<string>, m1: map<string, string>, m2: map<string, string>)
    requires forall k :: k in required ==> (k in m1 <==> k in m2)
    ensures AbsentKeys(required, m1) == AbsentKeys(required, m2)
  {
    if required != [] {
      var init := required[..|required| - 1];
      assert forall k :: k in init ==> k in required;
      AbsentKeysPresenceOnly(init, m1, m2);
    }
  }

  /** With an empty labels map every required key is missing, in order. */
  lemma {:induction false} AbsentKeysOfEmpty(required: seq<string>)
    ensures AbsentKeys(required, map[]) == required
  {
    if required != [] {
      AbsentKeysOfEmpty(required[..|required| - 1]);
    }
  }

  /** An absent labels map and an empty one are treated alike. */
  lemma NoLabelsLikeEmptyLabels(required: seq<string>)
    requires Renderable(required)
    ensures MissingLabels(required, None) == MissingLabels(required, Some(map[]))
    ensures DecideWith(required, Pod(None)) == DecideWith(required, Pod(Some(map[])))
  {
    AbsentKeysOfEmpty(required);
  }

  // ---------------------------------------------------------------------------
  // Properties of the policy with its hard-coded keys "owner" and "cost-center"
  // ---------------------------------------------------------------------------

  /** The missing list for the hard-coded keys: "owner" first if absent, then "cost-center" if absent. */
  lemma MissingRequiredLabels(labels: Option<map<string, string>>)
    ensures labels.None? ==> MissingLabels(RequiredLabels, labels) == ["owner", "cost-center"]
    ensures labels.Some? ==>
      MissingLabels(RequiredLabels, labels) ==
        (if "owner" in labels.value then [] else ["owner"]) +
        (if "cost-center" in labels.value then [] else ["cost-center"])
  {
    if labels.Some? {
      var podLabels := labels.value;
      assert RequiredLabels[..1] == ["owner"];
      assert ["owner"][..0] == [];
      assert AbsentKeys(["owner"], podLabels) == if "owner" in podLabels then [] else ["owner"];
    }
  }

  /** The missing list is an ordered selection of the required keys without repeats, so at most two long. */
  lemma MissingLabelsShape(labels: Option<map<string, string>>)
    ensures |MissingLabels(RequiredLabels, labels)| <= 2
    ensures Distinct(MissingLabels(RequiredLabels, labels))
    ensures IsSubsequence(MissingLabels(RequiredLabels, labels), RequiredLabels)
    ensures forall k :: k in MissingLabels(RequiredLabels, labels) <==>
      k in RequiredLabels && (labels.None? || k !in labels.value)
  {
    match labels {
      case None =>
        AbsentKeysOfEmpty(RequiredLabels);
        AbsentKeysIsSubsequence(RequiredLabels, map[]);
      case Some(podLabels) =>
        AbsentKeysIsSubsequence(RequiredLabels, podLabels);
        AbsentKeysDistinct(RequiredLabels, podLabels);
        forall k ensures k in AbsentKeys(RequiredLabels, podLabels) <==> k in RequiredLabels && k !in podLabels {
          AbsentKeysMembership(RequiredLabels, podLabels, k);
        }
    }
  }

  /** The singular message for a missing "owner", written out. */
  lemma OwnerMessage()
    ensures RejectionMessage(["owner"]) == "pod label [\"owner\"] is required"
  {
  }

  /** The singular message for a missing "cost-center", written out. */
  lemma CostCenterMessage()
    ensures RejectionMessage(["cost-center"]) == "pod label [\"cost-center\"] is required"
  {
    assert "pod label [\"" + "cost-center" + "\"] is required" == "pod label [\"cost-center\"] is required";
  }

  /** The plural text for the two hard-coded keys, with its pieces joined. */
  lemma PluralText()
    ensures "pod labels [\"" + "owner" + "\", \"" + "cost-center" + "\"] are required" ==
      "pod labels [\"owner\", \"cost-center\"] are required"
  {
  }

  /** The plural message, written out. */
  lemma PluralMessage()
    ensures RejectionMessage(["owner", "cost-center"]) == "pod labels [\"owner\", \"cost-center\"] are required"
  {
    RequiredLabelsRenderable();
    var both := RequiredLabels;
    assert |both| == 2 && both[0] == "owner" && both[1] == "cost-center";
    PluralText();
  }

  /** The complete decision table of the policy. */
  lemma DecisionTable(obj: AdmissionObject)
    ensures obj.NotAPod? ==> Decide(obj) == Accept
    ensures obj == Pod(None) ==>
      Decide(obj) == Reject("pod labels [\"owner\", \"cost-center\"] are required")
    ensures obj.Pod? && obj.labels.Some? ==>
      var podLabels := obj.labels.value;
      Decide(obj) ==
        if "owner" in podLabels && "cost-center" in podLabels then Accept
        else if "cost-center" in podLabels then Reject("pod label [\"owner\"] is required")
        else if "owner" in podLabels then Reject("pod label [\"cost-center\"] is required")
        else Reject("pod labels [\"owner\", \"cost-center\"] are required")
  {
    if obj.Pod? {
      MissingRequiredLabels(obj.labels);
      OwnerMessage();
      CostCenterMessage();
      PluralMessage();
    }
  }

  /** A Pod carrying both keys is accepted, whatever their values. */
  lemma AcceptsWhenBothKeysPresent(podLabels: map<string, string>)
    requires "owner" in podLabels && "cost-center" in podLabels
    ensures Decide(Pod(Some(podLabels))) == Accept
  {
    DecisionTable(Pod(Some(podLabels)));
  }

  /** Pods with the same label keys get the same decision, whatever the label values. */
  lemma ValuesDoNotMatter(m1: map<string, string>, m2: map<string, string>)
    requires m1.Keys == m2.Keys
    ensures Decide(Pod(Some(m1))) == Decide(Pod(Some(m2)))
  {
    AbsentKeysPresenceOnly(RequiredLabels, m1, m2);
  }

  /** Adding or changing a label whose key is not required leaves the decision unchanged. */
  lemma OtherKeysDoNotMatter(podLabels: map<string, string>, key: string, value: string)
    requires key !in RequiredLabels
    ensures Decide(Pod(Some(podLabels[key := value]))) == Decide(Pod(Some(podLabels)))
  {
    AbsentKeysPresenceOnly(RequiredLabels, podLabels[key := value], podLabels);
  }

  /** The missing list for the hard-coded keys is one of four lists. */
  lemma MissingLabelsCases(labels: Option<map<string, string>>)
    ensures var m := MissingLabels(RequiredLabels, labels);
      m == [] || m == ["owner"] || m == ["cost-center"] || m == ["owner", "cost-center"]
  {
    MissingRequiredLabels(labels);
  }

  /** The three rejection messages differ from one another. */
  lemma RejectionMessagesDistinct(m1: seq<string>, m2: seq<string>)
    requires m1 == ["owner"] || m1 == ["cost-center"] || m1 == ["owner", "cost-center"]
    requires m2 == ["owner"] || m2 == ["cost-center"] || m2 == ["owner", "cost-center"]
    requires m1 != m2
    ensures Renderable(m1) && Renderable(m2)
    ensures RejectionMessage(m1) != RejectionMessage(m2)
  {
    RequiredLabelsRenderable();
    assert "owner" in RequiredLabels && "cost-center" in RequiredLabels;
    OwnerMessage();
    CostCenterMessage();
    PluralMessage();
    var one := "pod label [\"owner\"] is required";
    var two := "pod label [\"cost-center\"] is required";
    var both := "pod labels [\"owner\", \"cost-center\"] are required";
    // After `pod label ["`, the first message goes on with the `o` of `owner`,
    // the second with the `c` of `cost-center`.
    assert one[12] != two[12];
    assert |both| != |one| && |both| != |two|;
  }

  /** A one-key message determines its key. */
  lemma SingularMessageInjective(a: string, b: string)
    requires NoDebugEscape(a) && NoDebugEscape(b)
    requires RejectionMessage([a]) == RejectionMessage([b])
    ensures a == b
  {
    var r := RejectionMessage([a]);
    assert r == "pod label " + DebugList([a]) + " is required";
    assert r == "pod label " + DebugList([b]) + " is required";
    assert DebugList([a]) == r[10..|r| - 12] == DebugList([b]);
    DebugListOneInjective(a, b);
  }

  /** A two-key message determines both keys, in order. */
  lemma PluralMessageInjective(a: string, b: string, c: string, d: string)
    requires NoDebugEscape(a) && NoDebugEscape(b) && NoDebugEscape(c) && NoDebugEscape(d)
    requires RejectionMessage([a, b]) == RejectionMessage([c, d])
    ensures a == c && b == d
  {
    var r := RejectionMessage([a, b]);
    assert r == "pod labels " + DebugList([a, b]) + " are required";
    assert r == "pod labels " + DebugList([c, d]) + " are required";
    assert DebugList([a, b]) == r[11..|r| - 13] == DebugList([c, d]);
    DebugListTwoInjective(a, b, c, d);
  }

  /** Index 9 tells the two forms apart: the space after `pod label`, or the `s` of `labels`. */
  lemma MessageNumberMark(missing: seq<string>)
    requires Renderable(missing)
    requires 1 <= |missing| <= 2
    ensures |RejectionMessage(missing)| > 9
    ensures RejectionMessage(missing)[9] == if |missing| == 1 then ' ' else 's'
  {
  }

  /**
   * The rejection message determines the missing list, for lists of the one or two keys
   * a Pod can lack: the singular and plural forms differ at `label ` / `labels`, and
   * within one form the Debug list between the fixed words can be read back.
   */
  lemma RejectionMessageInjective(m1: seq<string>, m2: seq<string>)
    requires Renderable(m1) && Renderable(m2)
    requires 1 <= |m1| <= 2 && 1 <= |m2| <= 2
    requires RejectionMessage(m1) == RejectionMessage(m2)
    ensures m1 == m2
  {
    MessageNumberMark(m1);
    MessageNumberMark(m2);
    if |m1| != |m2| {
      assert false;
    } else if |m1| == 1 {
      assert m1 == [m1[0]] && m2 == [m2[0]];
      SingularMessageInjective(m1[0], m2[0]);
    } else {
      assert m1 == [m1[0], m1[1]] && m2 == [m2[0], m2[1]];
      PluralMessageInjective(m1[0], m1[1], m2[0], m2[1]);
    }
  }

  /** Different missing lists lead to different decisions: the message names exactly what is missing. */
  lemma DecisionNamesMissing(l1: Option<map<string, string>>, l2: Option<map<string, string>>)
    requires MissingLabels(RequiredLabels, l1) != MissingLabels(RequiredLabels, l2)
    ensures Decide(Pod(l1)) != Decide(Pod(l2))
  {
    var m1 := MissingLabels(RequiredLabels, l1);
    var m2 := MissingLabels(RequiredLabels, l2);
    RequiredLabelsRenderable();
    MissingLabelsShape(l1);
    MissingLabelsShape(l2);
    if m1 != [] && m2 != [] {
      assert Renderable(m1) && Renderable(m2);
      if RejectionMessage(m1) == RejectionMessage(m2) {
        RejectionMessageInjective(m1, m2);
      }
    }
  }

}
