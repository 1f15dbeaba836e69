/** Validation of a jQuery QueryBuilder rule tree, as the `FilterFeed`
    property validator of model.py does it: two recursive walks over the
    JSON, one checking every group's `condition`, one checking every leaf's
    `id`; any exception rejects the whole tree. The typed `RuleNode` below is
    the tree the walks are meant to admit, and the lemmas prove that they admit
    exactly the JSON that decodes into one. */
module RuleTree {
  import opened Python
  import opened Json
  import Items

  /** `d["rules"]` followed by `for r in ...`: the children of a group. */
  function Children(d: JValue): (r: Result<seq<JValue>>)
    ensures r.Ok? ==> HasKey(d, "rules")
    ensures r.Ok? ==> exists k :: 0 <= k < |d.members| && d.members[k].0 == "rules" &&
                                 Iterate(d.members[k].1) == r
  {
    match Subscript(d, "rules")
    case Raised(e) => Raised(e)
    case Ok(rules) => Iterate(rules)
  }

  /** `recurse_check_condition(d)`: `Ok` when it returns, otherwise the
      exception it raises. */
  function CheckCondition(d: JValue): Result<()>
    decreases d, 1
  {
    match Subscript(d, "condition")
    case Raised(e) => Raised(e)
    case Ok(c) =>
      if c != JStr("AND") && c != JStr("OR") then Raised(AssertionError)
      else
        match Children(d)
        case Raised(e) => Raised(e)
        case Ok(rs) => CheckConditionFrom(d, rs, 0)
  }

  /** The loop of `recurse_check_condition` over `rs[i..]`, the children of
      `parent`: a child with a `"rules"` member (by Python's `in`) is checked
      recursively, every other child is skipped. A recursive call on a
      non-dict raises at its first subscript; that exception is returned
      directly (see `CheckConditionOfNonObject`). */
  function CheckConditionFrom(parent: JValue, rs: seq<JValue>, i: nat): Result<()>
    requires Children(parent) == Ok(rs) && i <= |rs|
    decreases parent, 0, |rs| - i
  {
    if i == |rs| then Ok(())
    else
      match Contains(rs[i], "rules")
      case Raised(e) => Raised(e)
      case Ok(false) => CheckConditionFrom(parent, rs, i + 1)
      case Ok(true) =>
        if !rs[i].JObj? then Raised(Subscript(rs[i], "condition").error)
        else
          match CheckCondition(rs[i])
          case Raised(e) => Raised(e)
          case Ok(_) => CheckConditionFrom(parent, rs, i + 1)
  }

  /** The assertion on a leaf: `r["id"]` is one of Item's field names. */
  function CheckLeafId(r: JValue): Result<()>
  {
    match Subscript(r, "id")
    case Raised(e) => Raised(e)
    case Ok(id) => if id.JStr? && id.s in Items.FieldNames then Ok(()) else Raised(AssertionError)
  }

  /** `recurse_check_fields(d)`. */
  function CheckFields(d: JValue): Result<()>
    decreases d, 1
  {
    match Children(d)
    case Raised(e) => Raised(e)
    case Ok(rs) => CheckFieldsFrom(d, rs, 0)
  }

  /** The loop of `recurse_check_fields` over `rs[i..]`: a child with a
      `"rules"` member is checked recursively, every other child is a leaf
      whose `id` is checked. */
  function CheckFieldsFrom(parent: JValue, rs: seq<JValue>, i: nat): Result<()>
    requires Children(parent) == Ok(rs) && i <= |rs|
    decreases parent, 0, |rs| - i
  {
    if i == |rs| then Ok(())
    else
      match Contains(rs[i], "rules")
      case Raised(e) => Raised(e)
      case Ok(true) =>
        if !rs[i].JObj? then Raised(Subscript(rs[i], "rules").error)
        else
          (match CheckFields(rs[i])
           case Raised(e) => Raised(e)
           case Ok(_) => CheckFieldsFrom(parent, rs, i + 1))
      case Ok(false) =>
        match CheckLeafId(rs[i])
        case Raised(e) => Raised(e)
        case Ok(_) => CheckFieldsFrom(parent, rs, i + 1)
  }

  /** `_validate_jqqb(prop, value)`: both walks, in order; the value itself
      on success. The third-party evaluator's trial run that precedes them is
      taken to succeed. */
  function ValidateProperty(value: JValue): (r: Result<JValue>)
    ensures r.Ok? ==> r.value == value
    ensures r.Raised? <==> CheckCondition(value).Raised? || CheckFields(value).Raised?
  {
    match CheckCondition(value)
    case Raised(e) => Raised(e)
    case Ok(_) =>
      match CheckFields(value)
      case Raised(e) => Raised(e)
      case Ok(_) => Ok(value)
  }

  /** `validate_jqqb(value)`: every exception becomes `False`. */
  predicate ValidateJqqb(value: JValue)
  {
    ValidateProperty(value).Ok?
  }

  // ---------------------------------------------------------------------
  // The typed rule tree the validator is meant to admit.

  datatype Condition = And | Or
  datatype Field = Title | Date | Description

  /** A group combines its rules; a leaf names an Item field. Operators and
      values are not inspected by the validator and are not kept here. */
  datatype RuleNode = Group(condition: Condition, rules: seq<RuleNode>) | Leaf(id: Field)

  function ConditionName(c: Condition): string
  {
    match c
    case And => "AND"
    case Or => "OR"
  }

  function FieldName(f: Field): string
  {
    match f
    case Title => "title"
    case Date => "date"
    case Description => "description"
  }

  /** The field names are exactly the names of Item's fields. */
  lemma FieldNamesAreItemFields()
    ensures forall f: Field :: FieldName(f) in Items.FieldNames
    ensures forall s :: s in Items.FieldNames ==> exists f: Field :: FieldName(f) == s
  {
    assert FieldName(Title) == Items.FieldNames[0];
    assert FieldName(Date) == Items.FieldNames[1];
    assert FieldName(Description) == Items.FieldNames[2];
  }

  function ConditionOf(c: JValue): (r: Option<Condition>)
    ensures r.Some? <==> c == JStr("AND") || c == JStr("OR")
    ensures r.Some? ==> c == JStr(ConditionName(r.value))
  {
    if c == JStr("AND") then Some(And)
    else if c == JStr("OR") then Some(Or)
    else None
  }

  function FieldOf(id: JValue): (r: Option<Field>)
    ensures r.Some? <==> id.JStr? && id.s in Items.FieldNames
    ensures r.Some? ==> id == JStr(FieldName(r.value))
  {
    if id == JStr("title") then Some(Title)
    else if id == JStr("date") then Some(Date)
    else if id == JStr("description") then Some(Description)
    else None
  }

  /** Reads `d` as a group in one pass: its condition, then its children,
      each of which must be a dict; a child with a `"rules"` key is a group,
      any other child a leaf. The root is always read as a group. */
  function Decode(d: JValue): (r: Option<RuleNode>)
    ensures r.Some? ==> r.value.Group?
    decreases d, 1
  {
    match Subscript(d, "condition")
    case Raised(_) => None
    case Ok(c) =>
      match ConditionOf(c)
      case None => None
      case Some(cond) =>
        match Children(d)
        case Raised(_) => None
        case Ok(rs) =>
          match DecodeFrom(d, rs, 0)
          case None => None
          case Some(nodes) => Some(Group(cond, nodes))
  }

  function DecodeLeaf(d: JValue): (r: Option<RuleNode>)
    ensures r.Some? ==> r.value.Leaf?
  {
    match Subscript(d, "id")
    case Raised(_) => None
    case Ok(id) =>
      match FieldOf(id)
      case None => None
      case Some(f) => Some(Leaf(f))
  }

  /** Reads a child: it must be a dict, and it is a group when it has a
      `"rules"` key (as the walks' `in` test decides), a leaf otherwise. */
  function DecodeNode(r: JValue): Option<RuleNode>
    decreases r, 2
  {
    if !r.JObj? then None else if HasKey(r, "rules") then Decode(r) else DecodeLeaf(r)
  }

  /** Decodes the children `rs[i..]` of `parent`, one node per child
      (`DecodeFromShape` says which are groups). */
  function DecodeFrom(parent: JValue, rs: seq<JValue>, i: nat): (r: Option<seq<RuleNode>>)
    requires Children(parent) == Ok(rs) && i <= |rs|
    ensures r.Some? ==> |r.value| == |rs| - i
    decreases parent, 0, |rs| - i
  {
    if i == |rs| then Some([])
    // Repeats the first test of `DecodeNode`: only a list yields dicts, and
    // its elements are smaller than `parent`.
    else if !rs[i].JObj? then None
    else
      var node := DecodeNode(rs[i]);
      var rest := DecodeFrom(parent, rs, i + 1);
      if node.None? || rest.None? then None
      else
        Some([node.value] + rest.value)
  }

  /** The minimal JSON for a typed tree: a group carries its `condition` and
      `rules`, a leaf only its `id`. The query-builder UI also writes
      `field`, `type`, `input`, `operator` and `value` on a leaf, which the
      two walks never read. */
  function Encode(n: RuleNode): JValue
  {
    match n
    case Group(c, rules) =>
      JObj([("condition", JStr(ConditionName(c))),
            ("rules", JArr(seq(|rules|, i requires 0 <= i < |rules| => Encode(rules[i]))))])
    case Leaf(f) => JObj([("id", JStr(FieldName(f)))])
  }

  // ---------------------------------------------------------------------
  // Proofs.

  /** The shortcut in the two loops is what the recursive call would do: on a
      non-dict both walks raise the TypeError of the first subscript. */
  lemma CheckConditionOfNonObject(v: JValue)
    requires !v.JObj?
    ensures CheckCondition(v) == Raised(Subscript(v, "condition").error)
    ensures CheckFields(v) == Raised(Subscript(v, "rules").error)
  {
  }

  /** A decoded child list has one node per child, every child is a dict,
      and a child becomes a group exactly when it has a `"rules"` key, and
      then decodes as a group itself; the others decode as leaves. */
  lemma {:induction false} DecodeFromShape(parent: JValue, rs: seq<JValue>, i: nat, j: nat)
    requires Children(parent) == Ok(rs) && i <= j < |rs|
    requires DecodeFrom(parent, rs, i).Some?
    ensures DecodeNode(rs[j]) == Some(DecodeFrom(parent, rs, i).value[j - i])
  {
    DecodeFromSuffix(parent, rs, i, j);
    DecodeFromStep(parent, rs, j);
    assert DecodeFrom(parent, rs, i).value[j - i] == DecodeFrom(parent, rs, i).value[j - i..][0];
  }

  /** The converse step: a dict child that decodes, followed by a decoded
      rest. */
  lemma DecodeFromCons(parent: JValue, rs: seq<JValue>, i: nat, node: RuleNode, rest: seq<RuleNode>)
    requires Children(parent) == Ok(rs) && i < |rs|
    requires DecodeNode(rs[i]) == Some(node)
    requires DecodeFrom(parent, rs, i + 1) == Some(rest)
    ensures DecodeFrom(parent, rs, i) == Some([node] + rest)
  {
  }

  /** Decoding from a later child gives the tail of the decoded list. */
  lemma {:induction false} DecodeFromSuffix(parent: JValue, rs: seq<JValue>, i: nat, j: nat)
    requires Children(parent) == Ok(rs) && i <= j <= |rs|
    requires DecodeFrom(parent, rs, i).Some?
    ensures DecodeFrom(parent, rs, j).Some?
    ensures DecodeFrom(parent, rs, i).value[j - i..] == DecodeFrom(parent, rs, j).value
    decreases j - i
  {
    if i < j {
      DecodeFromStep(parent, rs, i);
      DecodeFromSuffix(parent, rs, i + 1, j);
      var all := DecodeFrom(parent, rs, i).value;
      assert all[j - i..] == all[1..][j - (i + 1)..];
    }
  }

  /** One step of `DecodeFrom`: the decoded node of child `i` followed by the
      decoded rest. */
  lemma DecodeFromStep(parent: JValue, rs: seq<JValue>, i: nat)
    requires Children(parent) == Ok(rs) && i < |rs|
    requires DecodeFrom(parent, rs, i).Some?
    ensures DecodeFrom(parent, rs, i + 1).Some?
    ensures DecodeNode(rs[i]) == Some(DecodeFrom(parent, rs, i).value[0])
    ensures DecodeFrom(parent, rs, i).value[1..] == DecodeFrom(parent, rs, i + 1).value
  {
    var node := DecodeNode(rs[i]);
    var rest := DecodeFrom(parent, rs, i + 1);
    assert DecodeFrom(parent, rs, i) == Some([node.value] + rest.value);
    assert ([node.value] + rest.value)[1..] == rest.value;
  }

  /** The two walks together accept a group exactly when it decodes. */
  lemma {:induction false} ChecksIffDecodes(d: JValue)
    ensures (CheckCondition(d).Ok? && CheckFields(d).Ok?) <==> Decode(d).Some?
    decreases d, 1
  {
    match Subscript(d, "condition")
    case Raised(_) =>
    case Ok(c) =>
      match Children(d)
      case Raised(_) =>
      case Ok(rs) =>
        ChecksFromIffDecodesFrom(d, rs, 0);
  }

  lemma {:induction false} ChecksFromIffDecodesFrom(parent: JValue, rs: seq<JValue>, i: nat)
    requires Children(parent) == Ok(rs) && i <= |rs|
    ensures (CheckConditionFrom(parent, rs, i).Ok? && CheckFieldsFrom(parent, rs, i).Ok?)
              <==> DecodeFrom(parent, rs, i).Some?
    decreases parent, 0, |rs| - i
  {
    if i < |rs| {
      var r := rs[i];
      ChecksFromIffDecodesFrom(parent, rs, i + 1);
      if !r.JObj? {
        assert CheckFieldsFrom(parent, rs, i).Raised?;
      } else if HasKey(r, "rules") {
        assert Contains(r, "rules") == Ok(true);
        ChecksIffDecodes(r);
        assert DecodeNode(r) == Decode(r);
      } else {
        assert Contains(r, "rules") == Ok(false);
        assert CheckConditionFrom(parent, rs, i) == CheckConditionFrom(parent, rs, i + 1);
        assert DecodeNode(r).Some? <==> CheckLeafId(r).Ok?;
      }
    }
  }

  /** `validate_jqqb` accepts exactly the JSON that reads as a typed rule
      tree: every group's condition "AND" or "OR", every child a dict, every
      leaf id an Item field. */
  lemma ValidateIffDecodes(value: JValue)
    ensures ValidateJqqb(value) <==> Decode(value).Some?
  {
    ChecksIffDecodes(value);
  }

  lemma {:induction false} DecodeEncode(n: RuleNode)
    requires n.Group?
    ensures Decode(Encode(n)) == Some(n)
    decreases n, 1
  {
    var d := Encode(n);
    EncodedGroup(n);
    var rs := Children(d).value;
    forall j | 0 <= j < |rs| ensures DecodeNode(rs[j]) == Some(n.rules[j]) {
      DecodeEncodeChild(n.rules[j]);
    }
    DecodeFromPointwise(d, rs, 0, n.rules);
    assert n.rules[0..] == n.rules;
    DecodeGroup(d, n.condition, rs, n.rules);
  }

  /** The encoding of a group has its condition's name and one child per
      rule, each the encoding of that rule. */
  lemma EncodedGroup(n: RuleNode)
    requires n.Group?
    ensures Subscript(Encode(n), "condition") == Ok(JStr(ConditionName(n.condition)))
    ensures Children(Encode(n)).Ok? && |Children(Encode(n)).value| == |n.rules|
    ensures forall j :: 0 <= j < |n.rules| ==> Children(Encode(n)).value[j] == Encode(n.rules[j])
  {
    var d := Encode(n);
    var rs := seq(|n.rules|, i requires 0 <= i < |n.rules| => Encode(n.rules[i]));
    assert KeyIndex(d.members, "rules") == Some(1);
    assert Children(d) == Ok(rs);
  }

  /** A group reads as its condition and its decoded children. */
  lemma DecodeGroup(d: JValue, cond: Condition, rs: seq<JValue>, nodes: seq<RuleNode>)
    requires Subscript(d, "condition") == Ok(JStr(ConditionName(cond)))
    requires Children(d) == Ok(rs) && DecodeFrom(d, rs, 0) == Some(nodes)
    ensures Decode(d) == Some(Group(cond, nodes))
  {
    assert ConditionOf(JStr(ConditionName(cond))) == Some(cond);
  }

  /** Children that each read back as a node read back as the list of those
      nodes. */
  lemma {:induction false} DecodeFromPointwise(parent: JValue, rs: seq<JValue>, i: nat, nodes: seq<RuleNode>)
    requires Children(parent) == Ok(rs) && i <= |rs| && |nodes| == |rs|
    requires forall j :: i <= j < |rs| ==> DecodeNode(rs[j]) == Some(nodes[j])
    ensures DecodeFrom(parent, rs, i) == Some(nodes[i..])
    decreases |rs| - i
  {
    if i < |rs| {
      DecodeFromPointwise(parent, rs, i + 1, nodes);
      PointwiseStep(parent, rs, i, nodes);
    } else {
      assert nodes[i..] == [];
    }
  }

  lemma PointwiseStep(parent: JValue, rs: seq<JValue>, i: nat, nodes: seq<RuleNode>)
    requires Children(parent) == Ok(rs) && i < |rs| && |nodes| == |rs|
    requires DecodeNode(rs[i]) == Some(nodes[i])
    requires DecodeFrom(parent, rs, i + 1) == Some(nodes[i + 1..])
    ensures DecodeFrom(parent, rs, i) == Some(nodes[i..])
  {
    DecodeFromCons(parent, rs, i, nodes[i], nodes[i + 1..]);
    assert nodes[i..] == [nodes[i]] + nodes[i + 1..];
  }

  /** A child reads back as itself: as a group when it has a `"rules"` key,
      which exactly the encoded groups have, otherwise as a leaf. */
  lemma {:induction false} DecodeEncodeChild(child: RuleNode)
    ensures Encode(child).JObj?
    ensures HasKey(Encode(child), "rules") <==> child.Group?
    ensures DecodeNode(Encode(child)) == Some(child)
    decreases child, 2
  {
    var e := Encode(child);
    if child.Group? {
      assert e.members[1].0 == "rules";
      DecodeEncode(child);
    } else {
      assert KeyIndex(e.members, "id") == Some(0);
    }
  }

  /** The minimal encoding of every typed group passes validation and
      decodes back to that group. */
  lemma EncodeValidates(n: RuleNode)
    requires n.Group?
    ensures ValidateJqqb(Encode(n))
    ensures Decode(Encode(n)) == Some(n)
  {
    DecodeEncode(n);
    ValidateIffDecodes(Encode(n));
  }

  // ---------------------------------------------------------------------
  // What acceptance means, node by node.

  /** The node reached from `v` by following child positions `path` through
      the `"rules"` lists; `None` when the path leaves the tree. */
  function NodeAt(v: JValue, path: seq<nat>): Option<JValue>
    decreases |path|
  {
    if path == [] then Some(v)
    else
      match Children(v)
      case Raised(_) => None
      case Ok(rs) => if path[0] < |rs| then NodeAt(rs[path[0]], path[1..]) else None
  }

  /** Below a decoded root, every node is a dict; the root and every node
      with a `"rules"` key decode as groups, every other node as a leaf. */
  lemma {:induction false} DecodedEverywhere(v: JValue, path: seq<nat>)
    requires Decode(v).Some? && NodeAt(v, path).Some?
    ensures NodeAt(v, path).value.JObj?
    ensures path == [] || HasKey(NodeAt(v, path).value, "rules") ==> Decode(NodeAt(v, path).value).Some?
    ensures path != [] && !HasKey(NodeAt(v, path).value, "rules") ==> DecodeLeaf(NodeAt(v, path).value).Some?
    decreases |path|
  {
    if path != [] {
      var rs := Children(v).value;
      var i := path[0];
      DecodeFromShape(v, rs, 0, i);
      if HasKey(rs[i], "rules") {
        DecodedEverywhere(rs[i], path[1..]);
      }
    }
  }

  /** An accepted tree is valid everywhere, not just at the root: every node
      is a dict, the root and every node with a `"rules"` key have condition
      exactly "AND" or "OR", and every other node has an `id` that is one of
      Item's field names. */
  lemma AcceptedEverywhere(v: JValue, path: seq<nat>)
    requires ValidateJqqb(v) && NodeAt(v, path).Some?
    ensures NodeAt(v, path).value.JObj?
    ensures path == [] || HasKey(NodeAt(v, path).value, "rules") ==>
              Subscript(NodeAt(v, path).value, "condition") in [Ok(JStr("AND")), Ok(JStr("OR"))]
    ensures path != [] && !HasKey(NodeAt(v, path).value, "rules") ==>
              var id := Subscript(NodeAt(v, path).value, "id");
              id.Ok? && id.value.JStr? && id.value.s in Items.FieldNames
  {
    ValidateIffDecodes(v);
    DecodedEverywhere(v, path);
  }

  /** A dict without `"condition"` is rejected by the KeyError of its first
      subscript. */
  lemma MissingConditionRejected(d: JValue)
    requires d.JObj? && !HasKey(d, "condition")
    ensures ValidateProperty(d) == Raised(KeyError("condition"))
  {
  }

  /** A group with a good condition but no `"rules"` is rejected by a
      KeyError. */
  lemma MissingRulesRejected(d: JValue)
    requires Subscript(d, "condition") in [Ok(JStr("AND")), Ok(JStr("OR"))]
    requires !HasKey(d, "rules")
    ensures ValidateProperty(d) == Raised(KeyError("rules"))
  {
  }

  /** A leaf without `"id"`, as the only child of an AND group, is rejected
      by a KeyError from the field walk. */
  lemma MissingIdRejected(leaf: JValue)
    requires leaf.JObj? && !HasKey(leaf, "rules") && !HasKey(leaf, "id")
    ensures ValidateProperty(JObj([("condition", JStr("AND")), ("rules", JArr([leaf]))])) == Raised(KeyError("id"))
  {
    var d := JObj([("condition", JStr("AND")), ("rules", JArr([leaf]))]);
    assert KeyIndex(d.members, "condition") == Some(0);
    assert KeyIndex(d.members, "rules") == Some(1);
    assert Children(d) == Ok([leaf]);
    assert CheckConditionFrom(d, [leaf], 1) == Ok(());
    assert CheckCondition(d) == Ok(());
    assert CheckFieldsFrom(d, [leaf], 0) == Raised(KeyError("id"));
  }

  /** test_model.py:13-17: the empty groups are accepted. */
  lemma ValidEmptyExamples()
    ensures ValidateJqqb(JObj([("condition", JStr("OR")), ("rules", JArr([]))]))
    ensures ValidateJqqb(JObj([("condition", JStr("AND")), ("rules", JArr([]))]))
  {
    EmptyGroup("OR");
    EmptyGroup("AND");
  }

  /** test_model.py:23-30: any other condition, lower case included, is
      rejected. */
  lemma InvalidConditionExamples()
    ensures !ValidateJqqb(JObj([("condition", JStr("asdfasdf")), ("rules", JArr([]))]))
    ensures !ValidateJqqb(JObj([("condition", JStr("or")), ("rules", JArr([]))]))
    ensures !ValidateJqqb(JObj([("condition", JStr("and")), ("rules", JArr([]))]))
  {
    EmptyGroup("asdfasdf");
    EmptyGroup("or");
    EmptyGroup("and");
  }

  /** test_model.py:19-21 and 32-34: a leaf with id "title" is accepted, one
      with id "asdf" is not. */
  lemma LeafIdExamples()
    ensures ValidateJqqb(JObj([("condition", JStr("OR")), ("rules", JArr([QueryLeaf("title")]))]))
    ensures !ValidateJqqb(JObj([("condition", JStr("OR")), ("rules", JArr([QueryLeaf("asdf")]))]))
  {
    OneLeafGroup("title");
    OneLeafGroup("asdf");
  }

  /** A leaf as the query-builder UI writes it, with the given `id`. */
  function QueryLeaf(id: string): JValue
  {
    JObj([("field", JStr("title")), ("id", JStr(id)), ("input", JStr("text")),
          ("operator", JStr("contains")), ("type", JStr("string")), ("value", JStr("CVO"))])
  }

  lemma EmptyGroup(c: string)
    ensures ValidateJqqb(JObj([("condition", JStr(c)), ("rules", JArr([]))])) <==> c == "AND" || c == "OR"
  {
    var d := JObj([("condition", JStr(c)), ("rules", JArr([]))]);
    assert KeyIndex(d.members, "condition") == Some(0);
    assert KeyIndex(d.members, "rules") == Some(1);
    assert Children(d) == Ok([]);
    assert CheckFields(d) == Ok(());
    if c == "AND" || c == "OR" {
      assert CheckCondition(d) == Ok(());
    } else {
      assert CheckCondition(d) == Raised(AssertionError);
    }
  }

  lemma OneLeafGroup(id: string)
    ensures ValidateJqqb(JObj([("condition", JStr("OR")), ("rules", JArr([QueryLeaf(id)]))])) <==> id in Items.FieldNames
  {
    var leaf := QueryLeaf(id);
    var d := JObj([("condition", JStr("OR")), ("rules", JArr([leaf]))]);
    assert KeyIndex(d.members, "condition") == Some(0);
    assert KeyIndex(d.members, "rules") == Some(1);
    assert KeyIndex(leaf.members, "id") == Some(1);
    assert KeyIndex(leaf.members, "rules") == None;
    assert Children(d) == Ok([leaf]);
    assert Contains(leaf, "rules") == Ok(false);
    assert CheckConditionFrom(d, [leaf], 1) == Ok(());
    assert CheckCondition(d) == Ok(());
    assert CheckFieldsFrom(d, [leaf], 1) == Ok(());
    assert CheckFields(d) == CheckLeafId(leaf);
    assert Subscript(leaf, "id") == Ok(JStr(id));
  }

  /** Python iterates any container: a `"rules"` dict or string is walked
      through its keys or characters. An empty one is accepted; a non-empty
      string yields one-character leaves, whose `id` subscript raises. */
  lemma NonListRules()
    ensures ValidateJqqb(JObj([("condition", JStr("AND")), ("rules", JObj([]))]))
    ensures ValidateJqqb(JObj([("condition", JStr("AND")), ("rules", JStr(""))]))
    ensures !ValidateJqqb(JObj([("condition", JStr("AND")), ("rules", JStr("x"))]))
  {
    OneCharacterRulesRejected();
    var e := JObj([("condition", JStr("AND")), ("rules", JObj([]))]);
    assert KeyIndex(e.members, "rules") == Some(1);
    var f := JObj([("condition", JStr("AND")), ("rules", JStr(""))]);
    assert KeyIndex(f.members, "rules") == Some(1);
  }

  /** Rules given as the string "x" yield the single child "x", which is not
      a dict: the field walk's `in` test passes it and its `id` subscript
      raises. */
  lemma OneCharacterRulesRejected()
    ensures !ValidateJqqb(JObj([("condition", JStr("AND")), ("rules", JStr("x"))]))
  {
    var d := JObj([("condition", JStr("AND")), ("rules", JStr("x"))]);
    assert KeyIndex(d.members, "condition") == Some(0);
    assert KeyIndex(d.members, "rules") == Some(1);
    var it := Iterate(JStr("x")).value;
    assert |it| == 1 && it[0] == JStr(["x"[0]]);
    assert ["x"[0]] == "x";
    assert it == [JStr("x")];
    assert Children(d) == Ok([JStr("x")]);
    assert !In("rules", "x");
    assert CheckFieldsFrom(d, [JStr("x")], 0).Raised?;
  }
}
