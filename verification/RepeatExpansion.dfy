/** Expanding repeated services: copies with their own index, and templates filled in on the way. */
module RepeatExpansion {
  import opened JsonValues

  type Context = map<string, Value>

  /** Template evaluation: a text and the values it may refer to. */
  type Renderer = (string, Context) -> string

  const INDEX := "$index"
  const REPEAT := "repeat"

  /** The values this model speaks about: no array stands directly in an array, and the `repeat` of an
      array element is absent or a count. */
  predicate InDomain(v: Value) {
    match v
    case Arr(items) => forall i | 0 <= i < |items| :: IsService(items[i]) && InDomain(items[i])
    case Obj(fields) => forall k | k in fields :: InDomain(fields[k])
    case _ => true
  }

  predicate IsService(v: Value) {
    !v.Arr? && (v.Obj? && REPEAT in v.fields
                ==> Falsy(v.fields[REPEAT]) || (v.fields[REPEAT].Num? && v.fields[REPEAT].n > 0))
  }

  /** How many copies of a service there will be: a zero means none, nothing given means one. */
  function Copies(service: Value): nat
    requires IsService(service)
  {
    if !service.Obj? || REPEAT !in service.fields then 1
    else if service.fields[REPEAT] == Num(0) then 0
    else if Falsy(service.fields[REPEAT]) then 1
    else service.fields[REPEAT].n
  }

  function ApplyValueTemplate(render: Renderer, context: Context, v: Value): Value
    requires InDomain(v)
    decreases v, 0
  {
    if Falsy(v) then v
    else
      match v
      case Arr(items) => Arr(ExpandServices(render, context, items, |items|))
      case Obj(fields) => Obj(map k | k in fields :: ApplyValueTemplate(render, context + fields, fields[k]))
      case Str(s) => Str(render(s, context))
      case _ => v
  }

  /** The expansion of the first `n` services. */
  function ExpandServices(render: Renderer, context: Context, services: seq<Value>, n: nat): seq<Value>
    requires n <= |services| && forall i | 0 <= i < |services| :: IsService(services[i]) && InDomain(services[i])
    decreases services, n
  {
    if n == 0 then []
    else ExpandServices(render, context, services, n - 1) + ExpandService(render, context, services[n - 1])
  }

  function ExpandService(render: Renderer, context: Context, service: Value): seq<Value>
    requires IsService(service) && InDomain(service)
    decreases service, 2
  {
    seq(Copies(service), index requires index >= 0 => Copy(render, context, service, index))
  }

  /** One copy of a service: every field but `repeat` rendered with the service's own fields and its index. */
  function Copy(render: Renderer, context: Context, service: Value, index: nat): Value
    requires IsService(service) && InDomain(service)
    decreases service, 1
  {
    if !service.Obj? then service
    else
      Obj(map k | k in service.fields && k != REPEAT ::
            ApplyValueTemplate(render, context + service.fields + map[INDEX := Num(index)], service.fields[k]))
  }

  predicate AreServices(services: seq<Value>) {
    forall i | 0 <= i < |services| :: IsService(services[i]) && InDomain(services[i])
  }

  function Expand(render: Renderer, context: Context, services: seq<Value>): seq<Value>
    requires AreServices(services)
  {
    ExpandServices(render, context, services, |services|)
  }

  // ----- where each copy ends up -----

  /** The copies of the first `n` services. */
  function PrefixSum(services: seq<Value>, n: nat): nat
    requires n <= |services| && AreServices(services)
  {
    if n == 0 then 0 else PrefixSum(services, n - 1) + Copies(services[n - 1])
  }

  lemma {:induction false} ExpandLength(render: Renderer, context: Context, services: seq<Value>, n: nat)
    requires n <= |services| && AreServices(services)
    ensures |ExpandServices(render, context, services, n)| == PrefixSum(services, n)
  {
    if n != 0 {
      ExpandLength(render, context, services, n - 1);
    }
  }

  lemma {:induction false} ExpandAt(render: Renderer, context: Context, services: seq<Value>, n: nat, i: nat,
                                    index: nat)
    requires i < n <= |services| && AreServices(services) && index < Copies(services[i])
    ensures PrefixSum(services, i) + index < |ExpandServices(render, context, services, n)|
    ensures ExpandServices(render, context, services, n)[PrefixSum(services, i) + index]
        == Copy(render, context, services[i], index)
  {
    ExpandLength(render, context, services, n - 1);
    if i < n - 1 {
      ExpandAt(render, context, services, n - 1, i, index);
    }
  }

  /** Position by position: every position of the expansion holds one copy of one service, rendered with
      the index of that copy, and the copies stand in the order of their services. */
  lemma {:induction false} CopyAt(render: Renderer, context: Context, services: seq<Value>, n: nat, at: nat)
    returns (i: nat, index: nat)
    requires n <= |services| && AreServices(services) && at < |ExpandServices(render, context, services, n)|
    ensures i < n && index < Copies(services[i]) && at == PrefixSum(services, i) + index
    ensures ExpandServices(render, context, services, n)[at] == Copy(render, context, services[i], index)
  {
    ExpandLength(render, context, services, n - 1);
    if at < PrefixSum(services, n - 1) {
      i, index := CopyAt(render, context, services, n - 1, at);
    } else {
      i, index := n - 1, at - PrefixSum(services, n - 1);
    }
  }

  // ----- what each text is rendered with -----

  function FieldsOf(v: Value): Context {
    if v.Obj? then v.fields else map[]
  }

  /** What stands at the end of a path of field names; `Undefined` when there is no such path. */
  function Sub(v: Value, path: seq<string>): Value {
    if |path| == 0 then v
    else if v.Obj? && path[0] in v.fields then Sub(v.fields[path[0]], path[1..])
    else Undefined
  }

  /** The values a text may refer to: the outer ones, then the fields of the objects around it, the inner
      ones shadowing the outer. */
  function Scope(context: Context, v: Value, path: seq<string>, n: nat): Context
    requires n <= |path|
  {
    if n == 0 then context else Scope(context, v, path, n - 1) + FieldsOf(Sub(v, path[..n - 1]))
  }

  lemma {:induction false} ScopeInside(context: Context, v: Value, path: seq<string>, n: nat)
    requires n < |path| && v.Obj? && path[0] in v.fields
    ensures Scope(context, v, path, n + 1) == Scope(context + v.fields, v.fields[path[0]], path[1..], n)
  {
    if n == 0 {
      assert path[..0] == [];
    } else {
      ScopeInside(context, v, path, n - 1);
      assert path[..n][1..] == path[1..][..n - 1] && path[..n][0] == path[0];
    }
  }

  lemma ScopeOutside(context: Context, v: Value, path: seq<string>)
    ensures Scope(context, v, path, 0) == context
  {
  }

  /** The path leads to something: every name on it is a field of an object. */
  predicate Leads(v: Value, path: seq<string>) {
    |path| == 0 || (v.Obj? && path[0] in v.fields && Leads(v.fields[path[0]], path[1..]))
  }

  /** Whatever stands in nested objects is evaluated with the fields of all the objects around it. */
  lemma {:induction false} AppliedInside(render: Renderer, context: Context, v: Value, path: seq<string>)
    requires InDomain(v) && Leads(v, path)
    ensures InDomain(Sub(v, path)) && Leads(ApplyValueTemplate(render, context, v), path)
    ensures Sub(ApplyValueTemplate(render, context, v), path)
         == ApplyValueTemplate(render, Scope(context, v, path, |path|), Sub(v, path))
    decreases |path|
  {
    hide Scope;
    if |path| == 0 {
      ScopeOutside(context, v, path);
    } else {
      AppliedInside(render, context + v.fields, v.fields[path[0]], path[1..]);
      ScopeInside(context, v, path, |path| - 1);
    }
  }

  lemma {:induction false} TextLeads(v: Value, path: seq<string>)
    requires !Sub(v, path).Undefined?
    ensures Leads(v, path)
    decreases |path|
  {
    if |path| != 0 {
      TextLeads(v.fields[path[0]], path[1..]);
    }
  }

  /** Every text in nested objects is rendered with the fields of all the objects around it. */
  lemma {:induction false} TextIsRendered(render: Renderer, context: Context, v: Value, path: seq<string>)
    requires InDomain(v) && Sub(v, path).Str? && Sub(v, path).s != ""
    ensures Sub(ApplyValueTemplate(render, context, v), path)
         == Str(render(Sub(v, path).s, Scope(context, v, path, |path|)))
  {
    TextLeads(v, path);
    AppliedInside(render, context, v, path);
  }

  /** Everything else in nested objects: an array is expanded as services are, seeing the same fields; an object keeps
      its field names; and what is neither text nor container stays, as does the empty text. */
  lemma {:induction false} TheRestIsKept(render: Renderer, context: Context, v: Value, path: seq<string>)
    requires InDomain(v) && Leads(v, path)
    ensures var before, after := Sub(v, path), Sub(ApplyValueTemplate(render, context, v), path);
      && (before.Arr? ==>
            AreServices(before.items) && after == Arr(Expand(render, Scope(context, v, path, |path|), before.items)))
      && (before.Obj? ==> after.Obj? && after.fields.Keys == before.fields.Keys)
      && (!before.Arr? && !before.Obj? && (!before.Str? || before.s == "") ==> after == before)
  {
    hide Scope, Sub, Leads;
    AppliedInside(render, context, v, path);
  }

  /** A text in a copy of a service: the service's own fields stand behind the index of the copy, and the
      objects inside the service stand before it. */
  lemma {:induction false} CopyTextIsRendered(render: Renderer, context: Context, service: Value, index: nat,
                                              path: seq<string>)
    requires IsService(service) && InDomain(service)
    requires |path| > 0 && path[0] != REPEAT && Sub(service, path).Str? && Sub(service, path).s != ""
    ensures Sub(Copy(render, context, service, index), path)
         == Str(render(Sub(service, path).s,
                       Scope(context + FieldsOf(service) + map[INDEX := Num(index)], Sub(service, path[..1]),
                             path[1..], |path| - 1)))
  {
    var inner := context + service.fields + map[INDEX := Num(index)];
    assert path[..1][1..] == [];
    TextIsRendered(render, inner, service.fields[path[0]], path[1..]);
  }

  /** A copy has every field of its service but "repeat", each evaluated with the service's own fields in sight, and
      with the number of the copy under the name "$index". What is no object is its own copy. */
  lemma {:induction false} CopyFields(render: Renderer, context: Context, service: Value, index: nat)
    requires IsService(service) && InDomain(service)
    ensures !service.Obj? ==> Copy(render, context, service, index) == service
    ensures service.Obj? ==>
      var copy := Copy(render, context, service, index);
      && copy.Obj? && copy.fields.Keys == service.fields.Keys - {"repeat"}
      && forall k | k in copy.fields ::
           copy.fields[k]
           == ApplyValueTemplate(render, context + service.fields + map["$index" := Num(index)], service.fields[k])
  {
  }

  // ----- how many copies, from what is written -----

  /** A count written as `repeat` gives so many copies, zero none. Nothing written, or something else that is falsy,
      gives one copy, and so does a service that is no object. */
  lemma {:induction false} CountIsWritten(render: Renderer, context: Context, fields: map<string, Value>, n: nat,
                                          other: Value)
    requires InDomain(Obj(fields)) && InDomain(other) && !other.Arr?
    ensures AreServices([Obj(fields["repeat" := Num(n)])])
         && |Expand(render, context, [Obj(fields["repeat" := Num(n)])])| == n
    ensures "repeat" !in fields ==>
      AreServices([Obj(fields)]) && |Expand(render, context, [Obj(fields)])| == 1
    ensures other in {Undefined, Null, NaN, Bool(false), Str("")} ==>
      AreServices([Obj(fields["repeat" := other])])
      && |Expand(render, context, [Obj(fields["repeat" := other])])| == 1
    ensures !other.Obj? ==> AreServices([other]) && Expand(render, context, [other]) == [other]
  {
    var counted, silent := Obj(fields["repeat" := Num(n)]), Obj(fields["repeat" := other]);
    assert InDomain(counted) && InDomain(silent);
    assert Expand(render, context, [counted]) == ExpandServices(render, context, [counted], 0)
                                                + ExpandService(render, context, counted);
    if other in {Undefined, Null, NaN, Bool(false), Str("")} {
      assert Expand(render, context, [silent]) == ExpandServices(render, context, [silent], 0)
                                                 + ExpandService(render, context, silent);
    }
    if "repeat" !in fields {
      assert Expand(render, context, [Obj(fields)]) == ExpandServices(render, context, [Obj(fields)], 0)
                                                      + ExpandService(render, context, Obj(fields));
    }
    if !other.Obj? {
      assert Expand(render, context, [other]) == ExpandServices(render, context, [other], 0)
                                                + ExpandService(render, context, other);
    }
  }

  /** The count is the one written. */
  ghost predicate Written(service: Value, count: nat) {
    if service.Obj? && "repeat" in service.fields && service.fields["repeat"].Num?
    then service.fields["repeat"].n == count else count == 1
  }

  /** A whole list is as long as all counts written in it together, and its services' copies follow one
      another: copy `j` of a service stands `j` places behind the copies of the services before it. */
  lemma {:induction false} ListIsWritten(render: Renderer, context: Context, services: seq<Value>, counts: seq<nat>,
                                         i: nat, j: nat)
    requires AreServices(services) && |counts| == |services|
    requires forall k | 0 <= k < |services| :: Written(services[k], counts[k])
    ensures |Expand(render, context, services)| == SumSeq(counts)
    ensures i < |services| && j < counts[i] ==>
      SumSeq(counts[..i]) + j < |Expand(render, context, services)|
      && Expand(render, context, services)[SumSeq(counts[..i]) + j] == Copy(render, context, services[i], j)
  {
    hide ExpandServices, Copy;
    PrefixSumIsWritten(services, counts, |services|);
    assert counts[..|services|] == counts;
    ExpandLength(render, context, services, |services|);
    if i < |services| && j < counts[i] {
      PrefixSumIsWritten(services, counts, i);
      ExpandAt(render, context, services, |services|, i, j);
    }
  }

  lemma {:induction false} PrefixSumIsWritten(services: seq<Value>, counts: seq<nat>, n: nat)
    requires AreServices(services) && |counts| == |services| && n <= |services|
    requires forall k | 0 <= k < |services| :: Written(services[k], counts[k])
    ensures PrefixSum(services, n) == SumSeq(counts[..n])
  {
    if n != 0 {
      PrefixSumIsWritten(services, counts, n - 1);
      assert counts[..n] == counts[..n - 1] + [counts[n - 1]];
      SumSeqSnoc(counts[..n - 1], counts[n - 1]);
    }
  }

  lemma {:induction false} SumSeqSnoc(counts: seq<nat>, last: nat)
    ensures SumSeq(counts + [last]) == SumSeq(counts) + last
  {
    if |counts| != 0 {
      assert (counts + [last])[1..] == counts[1..] + [last];
      SumSeqSnoc(counts[1..], last);
    }
  }

  // ----- no `repeat` is left, and expanding again changes nothing -----

  /** No object that is an array element has a `repeat`, at any depth, and no array stands in an array. */
  ghost predicate NoRepeat(v: Value) {
    match v
    case Arr(items) => forall i | 0 <= i < |items| :: NoRepeatElement(items[i]) && NoRepeat(items[i])
    case Obj(fields) => forall k | k in fields :: NoRepeat(fields[k])
    case _ => true
  }

  ghost predicate NoRepeatElement(v: Value) {
    !v.Arr? && (v.Obj? ==> REPEAT !in v.fields)
  }

  lemma {:induction false} ApplyLeavesNoRepeat(render: Renderer, context: Context, v: Value)
    requires InDomain(v)
    ensures NoRepeat(ApplyValueTemplate(render, context, v))
    decreases v, 0
  {
    match v
    case Arr(items) => ExpandLeavesNoRepeat(render, context, items, |items|);
    case Obj(fields) =>
      forall k | k in fields
        ensures NoRepeat(ApplyValueTemplate(render, context + fields, fields[k]))
      {
        ApplyLeavesNoRepeat(render, context + fields, fields[k]);
      }
    case _ =>
  }

  lemma {:induction false} ExpandLeavesNoRepeat(render: Renderer, context: Context, services: seq<Value>, n: nat)
    requires n <= |services| && AreServices(services)
    ensures NoRepeat(Arr(ExpandServices(render, context, services, n)))
    decreases services, n
  {
    if n != 0 {
      ExpandLeavesNoRepeat(render, context, services, n - 1);
      var copies := ExpandService(render, context, services[n - 1]);
      forall i | 0 <= i < |copies|
        ensures NoRepeatElement(copies[i]) && NoRepeat(copies[i])
      {
        CopyHasNoRepeat(render, context, services[n - 1], i);
      }
    }
  }

  lemma {:induction false} CopyHasNoRepeat(render: Renderer, context: Context, service: Value, index: nat)
    requires IsService(service) && InDomain(service)
    ensures NoRepeatElement(Copy(render, context, service, index)) && NoRepeat(Copy(render, context, service, index))
    decreases service, 1
  {
    if service.Obj? {
      var inner := context + service.fields + map[INDEX := Num(index)];
      forall k | k in service.fields
        ensures NoRepeat(ApplyValueTemplate(render, inner, service.fields[k]))
      {
        ApplyLeavesNoRepeat(render, inner, service.fields[k]);
      }
    }
  }

  /** Every text that would be rendered renders to itself; a text that is an array element never is. */
  ghost predicate TemplateFree(render: Renderer, v: Value) {
    match v
    case Arr(items) => forall i | 0 <= i < |items| :: items[i].Str? || TemplateFree(render, items[i])
    case Obj(fields) => forall k | k in fields :: TemplateFree(render, fields[k])
    case Str(s) => forall context :: render(s, context) == s
    case _ => true
  }

  lemma {:induction false} NoRepeatIsInDomain(v: Value)
    requires NoRepeat(v)
    ensures InDomain(v)
  {
    match v
    case Arr(items) =>
      forall i | 0 <= i < |items|
        ensures InDomain(items[i])
      {
        NoRepeatIsInDomain(items[i]);
      }
    case Obj(fields) =>
      forall k | k in fields
        ensures InDomain(fields[k])
      {
        NoRepeatIsInDomain(fields[k]);
      }
    case _ =>
  }

  lemma {:induction false} NothingToApply(render: Renderer, context: Context, v: Value)
    requires NoRepeat(v) && TemplateFree(render, v)
    ensures InDomain(v) && ApplyValueTemplate(render, context, v) == v
    decreases v, 0
  {
    NoRepeatIsInDomain(v);
    match v
    case Arr(items) => NothingToExpand(render, context, items, |items|);
    case Obj(fields) =>
      forall k | k in fields
        ensures ApplyValueTemplate(render, context + fields, fields[k]) == fields[k]
      {
        NothingToApply(render, context + fields, fields[k]);
      }
    case _ =>
  }

  lemma {:induction false} NothingToExpand(render: Renderer, context: Context, services: seq<Value>, n: nat)
    requires n <= |services| && NoRepeat(Arr(services)) && TemplateFree(render, Arr(services))
    ensures AreServices(services) && ExpandServices(render, context, services, n) == services[..n]
    decreases services, n
  {
    NoRepeatIsInDomain(Arr(services));
    if n != 0 {
      NothingToExpand(render, context, services, n - 1);
      NothingToCopy(render, context, services[n - 1], 0);
      assert ExpandService(render, context, services[n - 1]) == [services[n - 1]];
      assert services[..n] == services[..n - 1] + [services[n - 1]];
    }
  }

  lemma {:induction false} NothingToCopy(render: Renderer, context: Context, service: Value, index: nat)
    requires NoRepeat(service) && (service.Str? || TemplateFree(render, service)) && NoRepeatElement(service)
    ensures IsService(service) && InDomain(service) && Copy(render, context, service, index) == service
    decreases service, 1
  {
    NoRepeatIsInDomain(service);
    if service.Obj? {
      var inner := context + service.fields + map[INDEX := Num(index)];
      forall k | k in service.fields
        ensures ApplyValueTemplate(render, inner, service.fields[k]) == service.fields[k]
      {
        NothingToApply(render, inner, service.fields[k]);
      }
      assert Copy(render, context, service, index).fields == service.fields;
    }
  }

  /** The expansion keeps no `repeat` on any array element, and when its texts hold no template any more,
      expanding it again, in any context, changes nothing. */
  lemma {:induction false} ExpansionIsFinal(render: Renderer, context: Context, services: seq<Value>, again: Context)
    requires AreServices(services)
    ensures NoRepeat(Arr(Expand(render, context, services)))
    ensures AreServices(Expand(render, context, services))
    ensures TemplateFree(render, Arr(Expand(render, context, services))) ==>
              Expand(render, again, Expand(render, context, services)) == Expand(render, context, services)
  {
    var out := Expand(render, context, services);
    ExpandLeavesNoRepeat(render, context, services, |services|);
    NoRepeatIsInDomain(Arr(out));
    if TemplateFree(render, Arr(out)) {
      NothingToExpand(render, again, out, |out|);
      assert out[..|out|] == out;
    }
  }
}
