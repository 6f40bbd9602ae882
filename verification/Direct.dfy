/** The layered, labelled store (src/shared/direct.c) on the memory backend. Which
    layers there are, the access rules and the root check are fixed; a client is its
    user id and its label, or no label at all. Of a label the C string counts. */
module Direct {
  import opened Basics
  import opened MemoryStore
  import opened OrderedMap
  import opened Wire
  import opened Smack

  datatype Config = Config(layers: seq<Layer>, rules: Rules, skipRoot: bool)

  const FLOOR := "_"
  const GROUP_VALUE: seq<byte> :=
    [66, 85, 88, 84, 79, 78, 95, 71, 82, 79, 85, 80, 95, 86, 65, 76, 85, 69, 0]

  function LayerAt(layers: seq<Layer>, name: string): (r: Option<Layer>)
    ensures r.Some? ==> r.value in layers && r.value.name == name
  {
    if layers == [] then None
    else if layers[0].name == name then Some(layers[0])
    else LayerAt(layers[1..], name)
  }

  function LayerOf(c: Config, key: Key): Option<Layer> {
    if key.layer.Some? then LayerAt(c.layers, CString(key.layer.value.name)) else None
  }

  function GroupKey(key: Key): Key {
    Key(key.layer, key.group, None, TYPE_STRING)
  }

  predicate Allowed(c: Config, client: Option<string>, tag: string, request: Request) {
    client.Some? ==> CheckAccess(c.rules, CString(client.value), CString(tag), request)
  }

  /** What get_value_for_layer answers for a key whose layer is closed. */
  function Fetch(c: Config, uid: uint32, stores: Stores, key: Key, client: Option<string>): Answer {
    match LayerOf(c, key)
    case None => Failed(EINVAL)
    case Some(l) =>
      var db := Contents(stores, ResourceName(l, uid));
      var group, answer := Got(db, GroupKey(key)), Got(db, key);
      if key.name.Some? && group.Failed? then group
      else if key.name.Some? && !Allowed(c, client, group.rec.tag, Read) then Failed(EPERM)
      else if answer.Found? && !Allowed(c, client, answer.rec.tag, Read) then Failed(EPERM)
      else answer
  }

  /** What a client gets is the stored value, exactly if its type fits, its group is there
      as a string, and the client may read both. */
  lemma FetchExact(c: Config, uid: uint32, stores: Stores, key: Key, client: Option<string>, v: Valrec)
    ensures Fetch(c, uid, stores, key, client) == Found(v) <==>
      match if key.layer.Some? then LayerAt(c.layers, CString(key.layer.value.name)) else None
      case None => false
      case Some(l) =>
        var db := Contents(stores, ResourceName(l, uid));
        var group := Record(db, key.group, None);
        && Record(db, key.group, key.name) == Some(v) && (key.kind == TYPE_UNSET || key.kind == TypeOf(v.data))
        && (client.Some? ==> CheckAccess(c.rules, CString(client.value), CString(v.tag), Read))
        && (key.name.Some? ==>
              && group.Some? && TypeOf(group.value.data) == TYPE_STRING
              && (client.Some? ==> CheckAccess(c.rules, CString(client.value), CString(group.value.tag), Read)))
  {
    hide CheckAccess, Record, CString, LayerAt, ResourceName, Contents;
  }

  /** It is told that it may not exactly when that is all that is missing. */
  lemma FetchDenied(c: Config, uid: uint32, stores: Stores, key: Key, client: Option<string>)
    ensures Fetch(c, uid, stores, key, client) == Failed(EPERM) <==>
      match if key.layer.Some? then LayerAt(c.layers, CString(key.layer.value.name)) else None
      case None => false
      case Some(l) =>
        var db := Contents(stores, ResourceName(l, uid));
        var group, rec := Record(db, key.group, None), Record(db, key.group, key.name);
        && client.Some?
        && (key.name.Some? ==> group.Some? && TypeOf(group.value.data) == TYPE_STRING)
        && (|| (key.name.Some? && !CheckAccess(c.rules, CString(client.value), CString(group.value.tag), Read))
            || (&& rec.Some? && (key.kind == TYPE_UNSET || key.kind == TypeOf(rec.value.data))
                && !CheckAccess(c.rules, CString(client.value), CString(rec.value.tag), Read)))
  {
    hide CheckAccess, Record, CString, LayerAt, ResourceName, Contents;
  }

  /** That there is nothing it is told exactly when a record looked for is missing. */
  lemma FetchMissing(c: Config, uid: uint32, stores: Stores, key: Key, client: Option<string>)
    ensures var mayRead := (tag: string) => client.Some? ==> CheckAccess(c.rules, CString(client.value), CString(tag), Read);
      Fetch(c, uid, stores, key, client) == Failed(ENOENT) <==>
        match if key.layer.Some? then LayerAt(c.layers, CString(key.layer.value.name)) else None
        case None => false
        case Some(l) =>
          var db := Contents(stores, ResourceName(l, uid));
          var group, rec := Record(db, key.group, None), Record(db, key.group, key.name);
          if key.name.Some? then
            group == None || (TypeOf(group.value.data) == TYPE_STRING && mayRead(group.value.tag) && rec == None)
          else rec == None
  {
    hide CheckAccess, Record, CString, LayerAt, ResourceName, Contents;
  }

  // ---- looking through the layers ----

  /** The group's key is a copy that takes as many bytes of the layer as its length says.
      Where that leaves out the NUL, what memory holds behind the copy belongs to it. */
  function CopiedKey(key: Key, behind: string): Key {
    if key.layer.None? || key.layer.value.closed then GroupKey(key)
    else GroupKey(key).(layer := Some(LayerName(key.layer.value.name + behind, false)))
  }

  function GroupAnswer(c: Config, uid: uint32, stores: Stores, key: Key, behind: string): Answer {
    match LayerOf(c, CopiedKey(key, behind))
    case None => Failed(EINVAL)
    case Some(m) => Got(Contents(stores, ResourceName(m, uid)), GroupKey(key))
  }

  /** What get_value_for_layer answers, with `behind` in memory behind the copy. */
  function FetchBehind(c: Config, uid: uint32, stores: Stores, key: Key, client: Option<string>, behind: string): Answer {
    match LayerOf(c, key)
    case None => Failed(EINVAL)
    case Some(l) =>
      var group, answer := GroupAnswer(c, uid, stores, key, behind), Got(Contents(stores, ResourceName(l, uid)), key);
      if key.name.Some? && group.Failed? then group
      else if key.name.Some? && !Allowed(c, client, group.rec.tag, Read) then Failed(EPERM)
      else if answer.Found? && !Allowed(c, client, answer.rec.tag, Read) then Failed(EPERM)
      else answer
  }

  /** The group's answer is that of looking up the copy. */
  lemma GroupFetched(c: Config, uid: uint32, stores: Stores, key: Key, behind: string)
    ensures Fetch(c, uid, stores, CopiedKey(key, behind), None) == GroupAnswer(c, uid, stores, key, behind)
  {
    hide Record, ResourceName;
  }

  predicate Sealed(key: Key) {
    key.layer.Some? ==> key.layer.value.closed
  }

  /** Nothing is read behind the layer of a key that is closed, or has no name. */
  lemma ClosedSame(c: Config, uid: uint32, stores: Stores, key: Key, client: Option<string>, behind: string)
    requires Sealed(key) || key.name.None?
    ensures FetchBehind(c, uid, stores, key, client, behind) == Fetch(c, uid, stores, key, client)
  {
    hide Allowed, Record, ResourceName;
  }

  predicate Below(a: Layer, b: Layer) {
    (a.kind == User && b.kind == System) || (a.kind == b.kind && a.priority < b.priority)
  }

  /** Layer `l` is tried with its name as the configuration has it, whose length does not
      count the NUL. */
  function Tried(c: Config, uid: uint32, stores: Stores, key: Key, client: Option<string>, l: Layer, behind: string): Answer {
    FetchBehind(c, uid, stores, key.(layer := Some(LayerName(l.name, false))), client, behind)
  }

  /** What is meant: the answer for the layer's name. */
  function FetchIn(c: Config, uid: uint32, stores: Stores, key: Key, client: Option<string>, l: Layer): Answer {
    Fetch(c, uid, stores, key.(layer := Some(LayerName(l.name, true))), client)
  }

  /** With a NUL behind the copy this is what comes; without a name it always does. */
  lemma TriedIn(c: Config, uid: uint32, stores: Stores, key: Key, client: Option<string>, l: Layer, behind: string)
    ensures CString(behind) == "" || key.name.None? ==>
      Tried(c, uid, stores, key, client, l, behind) == FetchIn(c, uid, stores, key, client, l)
  {
    hide Allowed, Record, ResourceName, CString;
    CStringIs(l.name);
    if CString(behind) == "" {
      BehindNothing(l.name, behind);
    }
  }

  lemma {:induction false} BehindNothing(s: Text, behind: string)
    requires CString(behind) == ""
    ensures CString(s + behind) == s == CString(s)
  {
    if s == "" {
      assert s + behind == behind;
    } else {
      assert (s + behind)[1..] == s[1..] + behind;
      BehindNothing(s[1..], behind);
    }
  }

  /** A layer that is meant to answer does so exactly when the copy, with what is behind
      it, names a layer where the client finds and may read the group. */
  lemma TriedExact(c: Config, uid: uint32, stores: Stores, key: Key, client: Option<string>, l: Layer, behind: string)
    requires key.name.Some? && FetchIn(c, uid, stores, key, client, l).Found?
    ensures Tried(c, uid, stores, key, client, l, behind) == FetchIn(c, uid, stores, key, client, l) <==>
      match LayerAt(c.layers, CString(l.name + behind))
      case None => false
      case Some(m) =>
        var group := Got(Contents(stores, ResourceName(m, uid)), GroupKey(key));
        && group.Found?
        && (client.Some? ==> CheckAccess(c.rules, CString(client.value), CString(group.rec.tag), Read))
  {
    hide CheckAccess, Record, ResourceName;
  }

  lemma TriedFound(c: Config, uid: uint32, stores: Stores, key: Key, client: Option<string>, l: Layer, behind: string)
    requires FetchIn(c, uid, stores, key, client, l).Found? && Tried(c, uid, stores, key, client, l, behind).Found?
    ensures FetchIn(c, uid, stores, key, client, l) == Tried(c, uid, stores, key, client, l, behind)
  {
    hide Allowed, Record, ResourceName;
  }

  function Behind(behind: seq<string>, i: nat): string {
    if i < |behind| then behind[i] else ""
  }

  /** The answers of the layers, in turn, with what is behind each copy. */
  function Answers(c: Config, uid: uint32, stores: Stores, key: Key, client: Option<string>, behind: seq<string>): (r: seq<Answer>)
    ensures |r| == |c.layers|
    ensures forall i :: 0 <= i < |r| ==> r[i] == Tried(c, uid, stores, key, client, c.layers[i], Behind(behind, i))
  {
    seq(|c.layers|, i requires 0 <= i < |c.layers| =>
      Tried(c, uid, stores, key, client, c.layers[i], Behind(behind, i)))
  }

  /** Of the first `n` layers, `i` answers; no other that answers is above it, and
      none later is level. */
  ghost predicate Best(layers: seq<Layer>, answers: seq<Answer>, n: nat, i: nat)
    requires i < n <= |layers| == |answers|
  {
    && answers[i].Found?
    && forall j :: 0 <= j < n && answers[j].Found? ==>
         if j <= i then !Below(layers[i], layers[j]) else Below(layers[j], layers[i])
  }

  /** Of the first `n` layers, the best is `k`, or none answers. */
  ghost predicate Choosing(layers: seq<Layer>, answers: seq<Answer>, n: nat, k: int)
    requires |layers| == |answers|
  {
    && -1 <= k < n <= |layers|
    && if k >= 0 then Best(layers, answers, n, k) else forall j :: 0 <= j < n ==> answers[j].Failed?
  }

  /** A look-up without a layer chooses layer `k` and answers `a`. */
  ghost predicate Looked(c: Config, uid: uint32, stores: Stores, key: Key, client: Option<string>, behind: seq<string>, k: int, a: Answer) {
    && Choosing(c.layers, Answers(c, uid, stores, key, client, behind), |c.layers|, k)
    && a == if k < 0 then Failed(ENOENT)
            else Tried(c, uid, stores, key, client, c.layers[k], Behind(behind, |c.layers|))
  }

  /** The answer that is meant: the best layer's, or that there is nothing. */
  ghost predicate Resolves(c: Config, uid: uint32, stores: Stores, key: Key, client: Option<string>, a: Answer) {
    exists k: int :: Looked(c, uid, stores, key, client, [], k, a)
  }

  lemma ChosenUnique(layers: seq<Layer>, answers: seq<Answer>, k: int, m: int)
    requires |layers| == |answers|
    requires Choosing(layers, answers, |layers|, k) && Choosing(layers, answers, |layers|, m)
    ensures k == m
  {
  }

  /** Layer `j`, if it answered, would be taken instead of `k`. */
  predicate Preferred(layers: seq<Layer>, k: nat, j: nat)
    requires k < |layers| && j < |layers|
  {
    Below(layers[k], layers[j]) || (j > k && !Below(layers[j], layers[k]))
  }

  /** The layer that is meant answers both times it is asked, and none that would be
      taken instead does. */
  ghost predicate AsMeant(c: Config, uid: uint32, stores: Stores, key: Key, client: Option<string>, behind: seq<string>, k: int)
    requires k < |c.layers|
  {
    var answers := Answers(c, uid, stores, key, client, behind);
    if k < 0 then forall j :: 0 <= j < |answers| ==> answers[j].Failed?
    else
      && answers[k].Found?
      && Tried(c, uid, stores, key, client, c.layers[k], Behind(behind, |c.layers|)).Found?
      && forall j :: 0 <= j < |answers| && Preferred(c.layers, k, j) ==> answers[j].Failed?
  }

  /** Exactly then the look-up goes as it is meant to. */
  lemma LookedExact(c: Config, uid: uint32, stores: Stores, key: Key, client: Option<string>, behind: seq<string>,
      k: int, a: Answer, k0: int, a0: Answer)
    ensures Looked(c, uid, stores, key, client, behind, k, a) && Looked(c, uid, stores, key, client, [], k0, a0) ==>
      (k == k0 && a == a0 <==> AsMeant(c, uid, stores, key, client, behind, k0))
  {
    hide Tried, FetchIn;
    if !Looked(c, uid, stores, key, client, behind, k, a) || !Looked(c, uid, stores, key, client, [], k0, a0) {
      return;
    }
    var n, meant := |c.layers|, Answers(c, uid, stores, key, client, []);
    var answers := Answers(c, uid, stores, key, client, behind);
    var met := AsMeant(c, uid, stores, key, client, behind, k0);
    if k0 >= 0 {
      var l := c.layers[k0];
      TriedIn(c, uid, stores, key, client, l, "");
      assert meant[k0].Found? && meant[k0] == a0 == FetchIn(c, uid, stores, key, client, l);
      if met {
        assert Choosing(c.layers, answers, n, k0);
        ChosenUnique(c.layers, answers, k, k0);
        TriedFound(c, uid, stores, key, client, l, Behind(behind, n));
      }
    } else if met {
      assert Choosing(c.layers, answers, n, k0);
      ChosenUnique(c.layers, answers, k, k0);
    }
  }

  /** Without a name, whatever is in memory. */
  lemma UnnamedMeant(c: Config, uid: uint32, stores: Stores, key: Key, client: Option<string>, behind: seq<string>, k: int, a: Answer)
    requires key.name.None? && Looked(c, uid, stores, key, client, behind, k, a)
    ensures Looked(c, uid, stores, key, client, [], k, a)
  {
    hide Tried, FetchIn, Below;
    MeantAnswers(c, uid, stores, key, client, behind);
  }

  /** The answers are the ones meant when every copy has a NUL behind it, or there is no
      name. */
  lemma MeantAnswers(c: Config, uid: uint32, stores: Stores, key: Key, client: Option<string>, behind: seq<string>)
    requires key.name.None? || forall i :: 0 <= i < |behind| ==> CString(behind[i]) == ""
    ensures Answers(c, uid, stores, key, client, behind) == Answers(c, uid, stores, key, client, [])
    ensures forall l ::
      (Tried(c, uid, stores, key, client, l, Behind(behind, |c.layers|)) == Tried(c, uid, stores, key, client, l, ""))
  {
    hide Tried, FetchIn;
    forall l, i: nat ensures Tried(c, uid, stores, key, client, l, Behind(behind, i)) == Tried(c, uid, stores, key, client, l, "") {
      TriedIn(c, uid, stores, key, client, l, Behind(behind, i));
      TriedIn(c, uid, stores, key, client, l, "");
    }
  }

  lemma NulsMeant(c: Config, uid: uint32, stores: Stores, key: Key, client: Option<string>, behind: seq<string>, k: int, a: Answer)
    requires forall i :: 0 <= i < |behind| ==> CString(behind[i]) == ""
    ensures Looked(c, uid, stores, key, client, behind, k, a) ==> Looked(c, uid, stores, key, client, [], k, a)
  {
    hide Tried, FetchIn, Below;
    MeantAnswers(c, uid, stores, key, client, behind);
  }

  /** A string so long that no layer's name reaches it. */
  function TooLong(layers: seq<Layer>): (r: Text)
    ensures forall l :: l in layers ==> |l.name| < |r|
  {
    if layers == [] then ""
    else
      var r := TooLong(layers[1..]);
      assert forall l :: l in layers ==> l == layers[0] || l in layers[1..];
      r + layers[0].name + "x"
  }

  /** With a name there can always be something in memory for which nothing is found. */
  lemma NamedLost(c: Config, uid: uint32, stores: Stores, key: Key, client: Option<string>) returns (behind: seq<string>)
    requires key.name.Some?
    ensures Looked(c, uid, stores, key, client, behind, -1, Failed(ENOENT))
  {
    var b := TooLong(c.layers);
    behind := seq(|c.layers|, _ => b);
    forall i | 0 <= i < |c.layers| ensures Tried(c, uid, stores, key, client, c.layers[i], Behind(behind, i)).Failed? {
      var name: Text := c.layers[i].name + b;
      CStringIs(name);
      assert LayerAt(c.layers, name).None?;
    }
  }

  /** Where some layer is meant to answer, a look-up without a layer gives the best
      layer's answer whatever memory holds, exactly when the key has no name. */
  lemma LayerlessExact(c: Config, uid: uint32, stores: Stores, key: Key, client: Option<string>, k0: int, a0: Answer)
    requires Looked(c, uid, stores, key, client, [], k0, a0) && k0 >= 0
    ensures (forall behind: seq<string>, k: int, a: Answer ::
        Looked(c, uid, stores, key, client, behind, k, a) ==> k == k0 && a == a0) <==> key.name.None?
  {
    hide Answers, Tried, Choosing;
    if key.name.Some? {
      var lost := NamedLost(c, uid, stores, key, client);
    } else {
      forall behind: seq<string>, k: int, a: Answer | Looked(c, uid, stores, key, client, behind, k, a)
        ensures k == k0 && a == a0
      {
        UnnamedMeant(c, uid, stores, key, client, behind, k, a);
        ChosenUnique(c.layers, Answers(c, uid, stores, key, client, []), k, k0);
      }
    }
  }

  ghost predicate NamesDistinct(layers: seq<Layer>) {
    forall i, j :: 0 <= i < j < |layers| ==> layers[i].name != layers[j].name
  }

  /** Layers of one kind have different priorities. */
  ghost predicate Ranked(layers: seq<Layer>) {
    forall a, b :: a in layers && b in layers && a != b ==> Below(a, b) || Below(b, a)
  }

  lemma {:induction false} LayerAtIs(layers: seq<Layer>, l: Layer)
    requires NamesDistinct(layers) && l in layers
    ensures LayerAt(layers, l.name) == Some(l)
  {
    if layers[0] != l {
      assert l in layers[1..];
      LayerAtIs(layers[1..], l);
      var i :| 0 <= i < |layers| && layers[i] == l;
      assert layers[0].name != layers[i].name;
    }
  }

  lemma LayerOfSame(c: Config, d: Config, key: Key)
    requires NamesDistinct(c.layers) && NamesDistinct(d.layers)
    requires forall l :: l in c.layers <==> l in d.layers
    ensures LayerOf(c, key) == LayerOf(d, key)
  {
    if key.layer.Some? {
      var name := CString(key.layer.value.name);
      var a, b := LayerAt(c.layers, name), LayerAt(d.layers, name);
      if a.Some? {
        LayerAtIs(d.layers, a.value);
      } else if b.Some? {
        LayerAtIs(c.layers, b.value);
      }
    }
  }

  ghost predicate Top(c: Config, uid: uint32, stores: Stores, key: Key, client: Option<string>, l: Layer) {
    && l in c.layers && FetchIn(c, uid, stores, key, client, l).Found?
    && forall m :: m in c.layers && FetchIn(c, uid, stores, key, client, m).Found? ==> !Below(l, m)
  }

  lemma BestTop(c: Config, uid: uint32, stores: Stores, key: Key, client: Option<string>, k: nat)
    requires Choosing(c.layers, Answers(c, uid, stores, key, client, []), |c.layers|, k)
    ensures Top(c, uid, stores, key, client, c.layers[k])
  {
    hide FetchIn, Tried, Below;
    MeantIn(c, uid, stores, key, client);
    forall m | m in c.layers && FetchIn(c, uid, stores, key, client, m).Found? ensures !Below(c.layers[k], m) {
      var j :| 0 <= j < |c.layers| && c.layers[j] == m;
      NotAbove(c.layers, Answers(c, uid, stores, key, client, []), k, j);
    }
  }

  /** The layer chosen is of the system if any such answers; no other of its kind that
      answers has a higher priority, and none behind it the same. */
  lemma ChosenLayer(c: Config, uid: uint32, stores: Stores, key: Key, client: Option<string>, k: nat, j: nat)
    requires Choosing(c.layers, Answers(c, uid, stores, key, client, []), |c.layers|, k) && j < |c.layers|
    ensures FetchIn(c, uid, stores, key, client, c.layers[k]).Found?
    ensures var l, m := c.layers[k], c.layers[j];
      FetchIn(c, uid, stores, key, client, m).Found? ==>
        && (m.kind == System ==> l.kind == System)
        && (m.kind == l.kind && j < k ==> m.priority <= l.priority)
        && (m.kind == l.kind && j > k ==> m.priority < l.priority)
  {
    hide FetchIn, Tried;
    MeantIn(c, uid, stores, key, client);
  }

  lemma MeantIn(c: Config, uid: uint32, stores: Stores, key: Key, client: Option<string>)
    ensures forall i :: 0 <= i < |c.layers| ==>
      Answers(c, uid, stores, key, client, [])[i] == FetchIn(c, uid, stores, key, client, c.layers[i])
  {
    hide FetchIn, Tried;
    forall i | 0 <= i < |c.layers|
      ensures Answers(c, uid, stores, key, client, [])[i] == FetchIn(c, uid, stores, key, client, c.layers[i])
    {
      TriedIn(c, uid, stores, key, client, c.layers[i], "");
    }
  }

  lemma NotAbove(layers: seq<Layer>, answers: seq<Answer>, k: nat, j: nat)
    requires |layers| == |answers| && k < |layers| && j < |layers|
    requires Best(layers, answers, |layers|, k) && answers[j].Found?
    ensures !Below(layers[k], layers[j])
  {
  }

  /** Some layer answers exactly when there is a top one. */
  lemma Resolved(c: Config, uid: uint32, stores: Stores, key: Key, client: Option<string>, a: Answer) returns (top: Option<Layer>)
    requires Resolves(c, uid, stores, key, client, a)
    ensures match top
      case Some(l) => Top(c, uid, stores, key, client, l) && a == FetchIn(c, uid, stores, key, client, l)
      case None => a == Failed(ENOENT) && forall l :: l in c.layers ==> FetchIn(c, uid, stores, key, client, l).Failed?
  {
    hide FetchIn, Below, Best, Tried;
    var k: int :| Looked(c, uid, stores, key, client, [], k, a);
    MeantIn(c, uid, stores, key, client);
    if k >= 0 {
      BestTop(c, uid, stores, key, client, k);
      TriedIn(c, uid, stores, key, client, c.layers[k], "");
      top := Some(c.layers[k]);
    } else {
      top := None;
    }
  }

  lemma TopAnswers(c: Config, uid: uint32, stores: Stores, key: Key, client: Option<string>, l: Layer)
    requires Top(c, uid, stores, key, client, l)
    ensures l in c.layers && FetchIn(c, uid, stores, key, client, l).Found?
  {
  }

  lemma FetchInSame(c: Config, d: Config, uid: uint32, stores: Stores, key: Key, client: Option<string>, l: Layer)
    requires NamesDistinct(c.layers) && NamesDistinct(d.layers) && c.rules == d.rules
    requires forall l :: l in c.layers <==> l in d.layers
    ensures FetchIn(c, uid, stores, key, client, l) == FetchIn(d, uid, stores, key, client, l)
  {
    hide CheckAccess, Got, LayerAt;
    LayerOfSame(c, d, key.(layer := Some(LayerName(l.name, true))));
  }

  lemma TopSame(c: Config, d: Config, uid: uint32, stores: Stores, key: Key, client: Option<string>, l: Layer)
    requires NamesDistinct(c.layers) && NamesDistinct(d.layers) && c.rules == d.rules
    requires forall l :: l in c.layers <==> l in d.layers
    requires Top(c, uid, stores, key, client, l)
    ensures Top(d, uid, stores, key, client, l)
  {
    hide FetchIn, Below, NamesDistinct;
    FetchInSame(c, d, uid, stores, key, client, l);
    forall m | m in d.layers && FetchIn(d, uid, stores, key, client, m).Found? ensures !Below(l, m) {
      FetchInSame(c, d, uid, stores, key, client, m);
    }
  }

  lemma TopUnique(c: Config, uid: uint32, stores: Stores, key: Key, client: Option<string>, a: Layer, b: Layer)
    requires Ranked(c.layers) && Top(c, uid, stores, key, client, a) && Top(c, uid, stores, key, client, b)
    ensures a == b
  {
    hide FetchIn, Below;
  }

  /** In whatever order the layers come, the answer that is meant is the same. */
  lemma OrderIrrelevant(c: Config, d: Config, uid: uint32, stores: Stores, key: Key, client: Option<string>, a: Answer, b: Answer)
    requires NamesDistinct(c.layers) && NamesDistinct(d.layers) && Ranked(c.layers) && c.rules == d.rules
    requires forall l :: l in c.layers <==> l in d.layers
    ensures Resolves(c, uid, stores, key, client, a) && Resolves(d, uid, stores, key, client, b) ==> a == b
  {
    hide FetchIn, Below, NamesDistinct, Resolves, Top;
    if !Resolves(c, uid, stores, key, client, a) || !Resolves(d, uid, stores, key, client, b) {
      return;
    }
    var x := Resolved(c, uid, stores, key, client, a);
    var y := Resolved(d, uid, stores, key, client, b);
    if x.Some? {
      TopSame(c, d, uid, stores, key, client, x.value);
    }
    if y.Some? {
      TopSame(d, c, uid, stores, key, client, y.value);
      FetchInSame(c, d, uid, stores, key, client, y.value);
    }
    if x.Some? && y.Some? {
      TopUnique(c, uid, stores, key, client, x.value, y.value);
    } else if x.Some? {
      assert Top(d, uid, stores, key, client, x.value);
      TopAnswers(d, uid, stores, key, client, x.value);
      assert false;
    } else if y.Some? {
      TopAnswers(c, uid, stores, key, client, y.value);
      assert false;
    }
  }

  // ---- changing the store ----

  datatype Op =
    | SetValue(key: Key, data: Data, client: Option<string>)
    | SetLabel(key: Key, tag: string)
    | CreateGroup(key: Key, client: Option<string>)
    | RemoveGroup(key: Key, client: Option<string>)
    | UnsetValue(key: Key, client: Option<string>)

  function StoreOf(c: Config, uid: uint32, key: Key): string {
    match LayerOf(c, key)
    case None => ""
    case Some(l) => ResourceName(l, uid)
  }

  function WriteTo(c: Config, uid: uint32, stores: Stores, key: Key, data: Option<Data>, tag: string): Stores {
    var r := StoreOf(c, uid, key);
    stores[r := Written(Contents(stores, r), KeyRec(key.group, key.name), data, tag)]
  }

  function UnsetIn(c: Config, uid: uint32, stores: Stores, key: Key): Stores {
    var r := StoreOf(c, uid, key);
    stores[r := Unset(Contents(stores, r), key)]
  }

  predicate Writable(c: Config, key: Key) {
    LayerOf(c, key).Some? && !LayerOf(c, key).value.readonly
  }

  /** System layers are root's to administer, unless the check is switched off. */
  predicate Administers(c: Config, uid: uint32, key: Key) {
    LayerOf(c, key).Some? && LayerOf(c, key).value.kind == System ==> uid == 0 || c.skipRoot
  }

  /** The label a written value gets: the one it has, else the writer's, else floor. */
  function LabelFor(c: Config, uid: uint32, stores: Stores, key: Key, client: Option<string>): string {
    var now := Fetch(c, uid, stores, key.(kind := TYPE_UNSET), None);
    if now.Found? then now.rec.tag else if client.Some? then client.value else FLOOR
  }

  /** The client may write the group, and the value if there is one. */
  predicate MayWrite(c: Config, uid: uint32, stores: Stores, key: Key, client: Option<string>) {
    var group := Fetch(c, uid, stores, GroupKey(key), None);
    var now := Fetch(c, uid, stores, key.(kind := TYPE_UNSET), None);
    && group.Found? && Allowed(c, client, group.rec.tag, Write)
    && (now.Found? ==> Allowed(c, client, now.rec.tag, Write))
  }

  /** The stores after a successful operation; `None` when it is refused. */
  ghost function Step(c: Config, uid: uint32, stores: Stores, op: Op): Option<Stores> {
    match op
    case SetValue(key, data, client) =>
      if MayWrite(c, uid, stores, key, client) && Writable(c, key) then
        Some(WriteTo(c, uid, stores, key, Some(data), LabelFor(c, uid, stores, key, client)))
      else None
    case SetLabel(key, tag) =>
      if Writable(c, key) && LayerOf(c, key).value.kind == System && Administers(c, uid, key)
        && Record(Contents(stores, StoreOf(c, uid, key)), key.group, key.name).Some?
      then Some(WriteTo(c, uid, stores, key, None, tag))
      else None
    case CreateGroup(key, client) =>
      if Writable(c, key) && Administers(c, uid, key) && Fetch(c, uid, stores, key, None) == Failed(ENOENT)
      then Some(WriteTo(c, uid, stores, key, Some(Str(GROUP_VALUE)), if client.Some? then client.value else FLOOR))
      else None
    case RemoveGroup(key, client) =>
      var group := Fetch(c, uid, stores, key, None);
      if Writable(c, key) && Administers(c, uid, key) && group.Found?
        && (LayerOf(c, key).value.kind == User ==> Allowed(c, client, group.rec.tag, Write))
      then Some(UnsetIn(c, uid, stores, key))
      else None
    case UnsetValue(key, client) =>
      var group, now := Fetch(c, uid, stores, GroupKey(key), None), Fetch(c, uid, stores, key, None);
      if Writable(c, key) && group.Found? && Allowed(c, client, group.rec.tag, Write)
        && (client.Some? ==> now.Found? && Allowed(c, client, now.rec.tag, Write))
        && Unsettable(Contents(stores, StoreOf(c, uid, key)), key)
      then Some(UnsetIn(c, uid, stores, key))
      else None
  }

  predicate Storable(op: Op) {
    op.SetValue? ==> !op.data.Untyped?
  }

  // ---- what a step does ----

  /** The operation is on this record: its own, or one of the group it removes. */
  predicate Touches(c: Config, uid: uint32, op: Op, r: string, rec: string) {
    r == StoreOf(c, uid, op.key) && On(op, rec)
  }

  predicate On(op: Op, rec: string) {
    || rec == KeyRec(op.key.group, op.key.name)
    || (op.key.name.None? && (op.RemoveGroup? || op.UnsetValue?) && CString(rec) == CString(op.key.group))
  }

  /** What becomes of a record the operation is on. */
  function Outcome(c: Config, uid: uint32, stores: Stores, op: Op, before: Option<Valrec>): Option<Valrec> {
    match op
    case SetValue(key, data, client) =>
      Some(Valrec(data, if before.Some? then before.value.tag else if client.Some? then client.value else FLOOR))
    case SetLabel(_, tag) => if before.Some? then Some(before.value.(tag := tag)) else None
    case CreateGroup(_, client) => Some(Valrec(Str(GROUP_VALUE), if client.Some? then client.value else FLOOR))
    case RemoveGroup(_, _) => None
    case UnsetValue(_, _) => None
  }

  lemma UnsetLaw(db: Db, key: Key, rec: string)
    requires Good(db)
    ensures Good(Unset(db, key))
    ensures Value(Unset(db, key), rec) ==
      if rec == KeyRec(key.group, key.name) || (key.name.None? && CString(rec) == CString(key.group)) then None
      else Value(db, rec)
  {
    hide KeyRec;
    UnsetGood(db, key);
    if key.name.Some? {
      RemoveLaw(db, KeyRec(key.group, key.name), rec);
    } else {
      GroupGone(db, key.group, rec);
      KeyRecParts(key.group, None);
    }
  }

  /** A key that may be written is labelled as it is, if it exists. */
  lemma LabelKept(c: Config, uid: uint32, stores: Stores, key: Key, client: Option<string>)
    requires MayWrite(c, uid, stores, key, client)
    ensures LabelFor(c, uid, stores, key, client) ==
      match Record(Contents(stores, StoreOf(c, uid, key)), key.group, key.name)
      case Some(v) => v.tag
      case None => if client.Some? then client.value else FLOOR
  {
  }

  /** A step changes the records it is on as it should, and no other record. */
  lemma StepLaw(c: Config, uid: uint32, stores: Stores, op: Op, r: string, rec: string)
    requires AllGood(stores) && Storable(op) && Step(c, uid, stores, op).Some?
    ensures Good(Contents(Step(c, uid, stores, op).value, r))
    ensures var before := Value(Contents(stores, r), rec);
      Value(Contents(Step(c, uid, stores, op).value, r), rec) ==
      if Touches(c, uid, op, r, rec) then Outcome(c, uid, stores, op, before) else before
  {
    hide Good, Fetch, MayWrite, LabelFor, Value, Written, Unset, LayerOf, KeyRec;
    var db := Contents(stores, StoreOf(c, uid, op.key));
    assert Good(db) && Good(Contents(stores, r));
    match op {
      case SetValue(key, data, client) =>
        LabelKept(c, uid, stores, key, client);
        WrittenLaw(db, KeyRec(key.group, key.name), Some(data), LabelFor(c, uid, stores, key, client), rec);
      case SetLabel(key, tag) =>
        WrittenLaw(db, KeyRec(key.group, key.name), None, tag, rec);
      case CreateGroup(key, client) =>
        WrittenLaw(db, KeyRec(key.group, key.name), Some(Str(GROUP_VALUE)),
          if client.Some? then client.value else FLOOR, rec);
      case RemoveGroup(key, _) =>
        UnsetLaw(db, key, rec);
      case UnsetValue(key, _) =>
        UnsetLaw(db, key, rec);
    }
  }

  // ---- who may do what ----

  /** The layer a key names. */
  lemma LayerNamed(c: Config, key: Key)
    ensures LayerOf(c, key) == if key.layer.Some? then LayerAt(c.layers, CString(key.layer.value.name)) else None
  {
  }

  /** A set succeeds exactly in a layer that is not read-only, on a group whose record is a
      string the client may write, and over a value it may write, if there is one. The
      value gets the label it had, else the client's, else floor. */
  lemma SetExact(c: Config, uid: uint32, stores: Stores, key: Key, data: Data, client: Option<string>)
    requires AllGood(stores) && !data.Untyped?
    ensures var after := Step(c, uid, stores, SetValue(key, data, client));
      var mayWrite := (tag: string) => client.Some? ==> CheckAccess(c.rules, CString(client.value), CString(tag), Write);
      match if key.layer.Some? then LayerAt(c.layers, CString(key.layer.value.name)) else None
      case None => after == None
      case Some(l) =>
        var r := ResourceName(l, uid);
        var db := Contents(stores, r);
        var group, now := Record(db, key.group, None), Record(db, key.group, key.name);
        && (after.Some? <==>
              && !l.readonly
              && group.Some? && TypeOf(group.value.data) == TYPE_STRING && mayWrite(group.value.tag)
              && (now.Some? ==> mayWrite(now.value.tag)))
        && (after.Some? ==>
              Record(Contents(after.value, r), key.group, key.name) ==
                Some(Valrec(data, if now.Some? then now.value.tag else if client.Some? then client.value else "_")))
  {
    hide CheckAccess, ResourceName, Record, KeyRec, CString, LayerAt, Good;
    SetAllowed(c, uid, stores, key, data, client);
    var op := SetValue(key, data, client);
    if Step(c, uid, stores, op).Some? {
      var r := StoreOf(c, uid, key);
      Recorded(c, uid, stores, op);
    }
  }

  /** What the look-ups inside a set find. */
  lemma InnerLooks(c: Config, uid: uint32, stores: Stores, key: Key)
    ensures var group, now := GroupKey(key), key.(kind := TYPE_UNSET);
      match LayerOf(c, key)
      case None => Fetch(c, uid, stores, group, None).Failed?
      case Some(l) =>
        var db := Contents(stores, ResourceName(l, uid));
        && Fetch(c, uid, stores, group, None) == Got(db, group)
        && (Got(db, group).Found? ==> Fetch(c, uid, stores, now, None) == Got(db, now))
  {
    hide ResourceName, Record, CString, LayerAt, Contents;
  }

  lemma SetAllowed(c: Config, uid: uint32, stores: Stores, key: Key, data: Data, client: Option<string>)
    ensures var after := Step(c, uid, stores, SetValue(key, data, client));
      var mayWrite := (tag: string) => client.Some? ==> CheckAccess(c.rules, CString(client.value), CString(tag), Write);
      match LayerOf(c, key)
      case None => after == None
      case Some(l) =>
        var db := Contents(stores, ResourceName(l, uid));
        var group, now := Record(db, key.group, None), Record(db, key.group, key.name);
        after.Some? <==>
          && !l.readonly
          && group.Some? && TypeOf(group.value.data) == TYPE_STRING && mayWrite(group.value.tag)
          && (now.Some? ==> mayWrite(now.value.tag))
  {
    hide CheckAccess, ResourceName, Record, KeyRec, CString, WriteTo, LabelFor, Contents, LayerAt, Fetch, Step;
    InnerLooks(c, uid, stores, key);
    SetStep(c, uid, stores, key, data, client);
  }

  /** What an operation makes of the record it names. */
  lemma Recorded(c: Config, uid: uint32, stores: Stores, op: Op)
    requires AllGood(stores) && Storable(op) && Step(c, uid, stores, op).Some?
    ensures var r := StoreOf(c, uid, op.key);
      Record(Contents(Step(c, uid, stores, op).value, r), op.key.group, op.key.name) ==
        Outcome(c, uid, stores, op, Record(Contents(stores, r), op.key.group, op.key.name))
  {
    hide Step, Outcome, KeyRec, Good, Contents, Value;
    StepLaw(c, uid, stores, op, StoreOf(c, uid, op.key), KeyRec(op.key.group, op.key.name));
  }

  /** A label is set exactly by root, or where that is not checked, in a system layer that
      is not read-only, on a record that is there. The value stays. */
  lemma SetLabelExact(c: Config, uid: uint32, stores: Stores, key: Key, tag: string)
    requires AllGood(stores)
    ensures var after := Step(c, uid, stores, SetLabel(key, tag));
      match if key.layer.Some? then LayerAt(c.layers, CString(key.layer.value.name)) else None
      case None => after == None
      case Some(l) =>
        var r := ResourceName(l, uid);
        var now := Record(Contents(stores, r), key.group, key.name);
        && (after.Some? <==> !l.readonly && l.kind == System && (uid == 0 || c.skipRoot) && now.Some?)
        && (after.Some? ==> Record(Contents(after.value, r), key.group, key.name) == Some(Valrec(now.value.data, tag)))
  {
    hide ResourceName, Record, KeyRec, CString, LayerAt, Good, WriteTo, Contents;
    var op := SetLabel(key, tag);
    if Step(c, uid, stores, op).Some? {
      Recorded(c, uid, stores, op);
    }
  }

  /** A group is created exactly in a layer that is not read-only, in a system layer only by
      root or where that is not checked, and where no record of that key is found: with a
      name, that is also so when the group's record is missing. It gets the client's label,
      else floor. */
  lemma CreateExact(c: Config, uid: uint32, stores: Stores, key: Key, client: Option<string>)
    requires AllGood(stores)
    ensures var after := Step(c, uid, stores, CreateGroup(key, client));
      match if key.layer.Some? then LayerAt(c.layers, CString(key.layer.value.name)) else None
      case None => after == None
      case Some(l) =>
        var r := ResourceName(l, uid);
        var db := Contents(stores, r);
        var group, now := Record(db, key.group, None), Record(db, key.group, key.name);
        && (after.Some? <==>
              && !l.readonly && (l.kind == System ==> uid == 0 || c.skipRoot)
              && if key.name.Some? then
                   group == None || (TypeOf(group.value.data) == TYPE_STRING && now == None)
                 else now == None)
        && (after.Some? ==>
              Record(Contents(after.value, r), key.group, key.name) ==
                Some(Valrec(Str(GROUP_VALUE), if client.Some? then client.value else "_")))
  {
    hide ResourceName, Record, KeyRec, CString, LayerAt, Good, WriteTo, Contents, CheckAccess;
    var op := CreateGroup(key, client);
    if Step(c, uid, stores, op).Some? {
      Recorded(c, uid, stores, op);
    }
  }

  /** A group is removed exactly from a layer that is not read-only, from a system layer only
      by root or where that is not checked, and from a user layer only by a client that may
      write it; its record must be found. */
  lemma RemoveExact(c: Config, uid: uint32, stores: Stores, key: Key, client: Option<string>)
    requires AllGood(stores)
    ensures var after := Step(c, uid, stores, RemoveGroup(key, client));
      match if key.layer.Some? then LayerAt(c.layers, CString(key.layer.value.name)) else None
      case None => after == None
      case Some(l) =>
        var r := ResourceName(l, uid);
        var db := Contents(stores, r);
        var group, now := Record(db, key.group, None), Record(db, key.group, key.name);
        && (after.Some? <==>
              && !l.readonly && (l.kind == System ==> uid == 0 || c.skipRoot)
              && now.Some? && (key.kind == TYPE_UNSET || key.kind == TypeOf(now.value.data))
              && (key.name.Some? ==> group.Some? && TypeOf(group.value.data) == TYPE_STRING)
              && (l.kind == User && client.Some? ==>
                    CheckAccess(c.rules, CString(client.value), CString(now.value.tag), Write)))
        && (after.Some? ==> Record(Contents(after.value, r), key.group, key.name) == None)
  {
    hide ResourceName, Record, KeyRec, CString, LayerAt, Good, UnsetIn, Contents, CheckAccess;
    var op := RemoveGroup(key, client);
    if Step(c, uid, stores, op).Some? {
      Recorded(c, uid, stores, op);
    }
  }

  /** An unset succeeds exactly in a layer that is not read-only, on a group whose record is a
      string the client may write, and for a labelled client on a record that is found with
      the type it has, and that the client may write; for others the record need only be
      there. */
  lemma UnsetExact(c: Config, uid: uint32, stores: Stores, key: Key, client: Option<string>)
    requires AllGood(stores)
    ensures var after := Step(c, uid, stores, UnsetValue(key, client));
      match if key.layer.Some? then LayerAt(c.layers, CString(key.layer.value.name)) else None
      case None => after == None
      case Some(l) =>
        var r := ResourceName(l, uid);
        var db := Contents(stores, r);
        var group, now := Record(db, key.group, None), Record(db, key.group, key.name);
        && (after.Some? <==>
              && !l.readonly
              && group.Some? && TypeOf(group.value.data) == TYPE_STRING && now.Some?
              && (client.Some? ==>
                    && CheckAccess(c.rules, CString(client.value), CString(group.value.tag), Write)
                    && (key.kind == TYPE_UNSET || key.kind == TypeOf(now.value.data))
                    && CheckAccess(c.rules, CString(client.value), CString(now.value.tag), Write)))
        && (after.Some? ==> Record(Contents(after.value, r), key.group, key.name) == None)
  {
    hide ResourceName, Record, KeyRec, CString, LayerAt, Good, UnsetIn, Contents, CheckAccess, GroupStored;
    GroupThere(Contents(stores, StoreOf(c, uid, key)), key.group);
    var op := UnsetValue(key, client);
    if Step(c, uid, stores, op).Some? {
      Recorded(c, uid, stores, op);
    }
  }

  lemma GroupThere(db: Db, group: string)
    ensures Record(db, group, None).Some? ==> GroupStored(db, group)
  {
    hide KeyRec;
    KeyRecParts(group, None);
  }

  /** The same as the step's law for a layer and a user: records of a layer that shares no store with the
      operation's are untouched. */
  lemma StepApart(c: Config, uid: uint32, stores: Stores, op: Op, m: Layer, v: uint32, rec: string)
    requires AllGood(stores) && Storable(op) && Step(c, uid, stores, op).Some?
    ensures LayerOf(c, op.key).Some?
    ensures var shared := Shares(LayerOf(c, op.key).value, uid, m, v);
      var before := Value(Contents(stores, ResourceName(m, v)), rec);
      Value(Contents(Step(c, uid, stores, op).value, ResourceName(m, v)), rec) ==
        if shared && On(op, rec) then Outcome(c, uid, stores, op, before) else before
  {
    hide Good, MayWrite, LabelFor, Value, Outcome, Shares, ResourceName, AllGood;
    StoresShared(LayerOf(c, op.key).value, uid, m, v);
    StepLaw(c, uid, stores, op, ResourceName(m, v), rec);
  }

  /** With names that are different and have no dash, that is every other layer, and
      every other user of a user layer. */
  lemma OthersUntouched(c: Config, uid: uint32, stores: Stores, op: Op, m: Layer, v: uint32, rec: string)
    requires AllGood(stores) && Storable(op) && Step(c, uid, stores, op).Some?
    requires NamesDistinct(c.layers) && m in c.layers && forall l :: l in c.layers ==> '-' !in l.name
    requires LayerOf(c, op.key) != Some(m) || (m.kind == User && v != uid)
    ensures Value(Contents(Step(c, uid, stores, op).value, ResourceName(m, v)), rec)
      == Value(Contents(stores, ResourceName(m, v)), rec)
  {
    hide Step, AllGood, ResourceName, Value, Contents;
    StepApart(c, uid, stores, op, m, v, rec);
    var l := LayerOf(c, op.key).value;
    DashlessStores(l, uid, m, v);
    LayerAtIs(c.layers, m);
  }

  lemma StepGood(c: Config, uid: uint32, stores: Stores, op: Op)
    requires AllGood(stores) && Storable(op) && Step(c, uid, stores, op).Some?
    ensures AllGood(Step(c, uid, stores, op).value)
  {
    hide Step, Good;
    forall r ensures Good(Contents(Step(c, uid, stores, op).value, r)) {
      StepLaw(c, uid, stores, op, r, "");
    }
  }

  /** Who may write a key may read its group, and the key under the label it gets. */
  lemma WriterReads(c: Config, uid: uint32, stores: Stores, key: Key, client: Option<string>)
    requires MayWrite(c, uid, stores, key, client)
    ensures Allowed(c, client, LabelFor(c, uid, stores, key, client), Read)
    ensures var g := Record(Contents(stores, StoreOf(c, uid, key)), key.group, None);
      g.Some? && TypeOf(g.value.data) == TYPE_STRING && Allowed(c, client, g.value.tag, Read)
  {
    if client.Some? {
      var group := Fetch(c, uid, stores, GroupKey(key), None);
      WriteImpliesRead(c.rules, CString(client.value), CString(group.rec.tag));
      var now := Fetch(c, uid, stores, key.(kind := TYPE_UNSET), None);
      if now.Found? {
        WriteImpliesRead(c.rules, CString(client.value), CString(now.rec.tag));
      }
    }
  }

  lemma RecsApart(group: string, name: Option<string>)
    ensures KeyRec(group, name) == KeyRec(group, None) <==> name.None?
  {
  }

  /** A client reads back what it wrote, under the label the record has now; asked
      for another type, it is told so. */
  lemma ReadYourWrites(c: Config, uid: uint32, stores: Stores, key: Key, data: Data, client: Option<string>, kind: nat)
    requires AllGood(stores) && !data.Untyped? && Step(c, uid, stores, SetValue(key, data, client)).Some?
    ensures Fetch(c, uid, Step(c, uid, stores, SetValue(key, data, client)).value, key.(kind := kind), client) ==
      if kind == TYPE_UNSET || kind == TypeOf(data) then Found(Valrec(data, LabelFor(c, uid, stores, key, client)))
      else Failed(EINVAL)
  {
    hide Good, Written, Unset, KeyRec, CheckAccess, LabelFor;
    var op := SetValue(key, data, client);
    var r := StoreOf(c, uid, key);
    StepLaw(c, uid, stores, op, r, KeyRec(key.group, key.name));
    StepLaw(c, uid, stores, op, r, KeyRec(key.group, None));
    RecsApart(key.group, key.name);
    LabelKept(c, uid, stores, key, client);
    WriterReads(c, uid, stores, key, client);
  }

  // ---- groups and their keys ----

  ghost predicate HasGroup(db: Db, group: string) {
    var g := Record(db, group, None);
    g.Some? && g.value.data.Str?
  }

  /** Every stored key has a stored group record, which is a string. Keys and groups are
      those without a NUL inside. */
  ghost predicate Integral(db: Db) {
    forall g: Text, n: Text :: Record(db, g, Some(n)).Some? ==> HasGroup(db, g)
  }

  ghost predicate AllIntegral(stores: Stores) {
    forall r :: Integral(Contents(stores, r))
  }

  /** What an operation must be for the keys to keep their groups: a set is on a key, or
      a string, or on no group that has keys; and what a group's creation writes is not
      the record of a key whose group is missing. */
  ghost predicate Careful(db: Db, op: Op) {
    match op
    case SetValue(key, data, _) =>
      key.name.Some? || data.Str? || !NulFree(key.group) || forall n: Text :: Record(db, key.group, Some(n)).None?
    case CreateGroup(key, _) =>
      var rec := KeyRec(key.group, key.name);
      IsKeyRec(rec) && Name(rec).Some? ==> HasGroup(db, CString(rec))
    case _ => true
  }

  /** A key's record key is that of no other key, and of a group only by a NUL inside. */
  lemma RecOfKey(g: Text, n: Text, group: string, name: Option<string>)
    requires KeyRec(group, name) == KeyRec(g, Some(n))
    ensures name.Some? ==> group == g && name.value == n
    ensures name.None? ==> group == g + "\0" + n
  {
    var rec := KeyRec(g, Some(n));
    assert rec == g + "\0" + n + "\0" && |rec| == |g| + |n| + 2;
    assert forall i :: 0 <= i < |g| ==> rec[i] == g[i] && rec[i] != '\0';
    assert forall i :: 0 <= i < |n| ==> rec[|g| + 1 + i] == n[i] && n[i] != '\0';
    assert rec[|group|] == '\0';
    match name {
      case None =>
        assert group == rec[..|rec| - 1];
      case Some(m) =>
        assert rec == group + "\0" + m + "\0";
        assert |group| == |g|;
        assert group == rec[..|g|] == g && m == rec[|g| + 1..|rec| - 1] == n;
    }
  }

  /** A group's record key is no key's. */
  lemma RecOfGroup(g: Text, group: string, name: Option<string>)
    requires KeyRec(group, name) == KeyRec(g, None)
    ensures group == g && name.None?
  {
    var rec := KeyRec(g, None);
    assert rec == g + "\0";
    assert forall i :: 0 <= i < |g| ==> rec[i] == g[i] && rec[i] != '\0';
    assert rec[|group|] == '\0';
    assert |group| == |g| && group == rec[..|group|];
  }

  lemma WrittenInGroup(c: Config, uid: uint32, stores: Stores, key: Key, client: Option<string>)
    requires Good(Contents(stores, StoreOf(c, uid, key))) && MayWrite(c, uid, stores, key, client)
    ensures HasGroup(Contents(stores, StoreOf(c, uid, key)), key.group)
  {
    hide Distinct, KeyRec;
    var db := Contents(stores, StoreOf(c, uid, key));
    var i := Find(db, KeyRec(key.group, None));
    assert i >= 0 && !db[i].value.data.Untyped?;
  }

  lemma NotFound(c: Config, uid: uint32, stores: Stores, key: Key)
    requires LayerOf(c, key).Some? && Fetch(c, uid, stores, key, None) == Failed(ENOENT)
    requires Good(Contents(stores, StoreOf(c, uid, key)))
    ensures var db := Contents(stores, StoreOf(c, uid, key));
      key.name.None? || Record(db, key.group, None).Some? ==>
        Record(db, key.group, key.name).None? && (key.name.Some? ==> HasGroup(db, key.group))
  {
    hide Distinct, KeyRec;
    var db := Contents(stores, StoreOf(c, uid, key));
    var i := Find(db, KeyRec(key.group, None));
    assert i >= 0 ==> !db[i].value.data.Untyped?;
  }

  lemma StepIntegral(c: Config, uid: uint32, stores: Stores, op: Op, r: string, g: Text, n: Text)
    requires AllGood(stores) && AllIntegral(stores) && Storable(op) && Step(c, uid, stores, op).Some?
    requires Careful(Contents(stores, StoreOf(c, uid, op.key)), op)
    requires Record(Contents(Step(c, uid, stores, op).value, r), g, Some(n)).Some?
    ensures HasGroup(Contents(Step(c, uid, stores, op).value, r), g)
  {
    hide Good, Value, Written, Unset, LayerOf, StoreOf, MayWrite, Fetch, Contents, LabelFor, KeyRec, CString, Name;
    var k, o := KeyRec(g, Some(n)), KeyRec(g, None);
    StepLaw(c, uid, stores, op, r, k);
    StepLaw(c, uid, stores, op, r, o);
    KeyRecParts(g, Some(n));
    KeyRecParts(g, None);
    var db, w := Contents(stores, r), KeyRec(op.key.group, op.key.name);
    assert Integral(db) && Good(Contents(stores, StoreOf(c, uid, op.key)));
    assert Record(db, g, Some(n)).Some? ==> HasGroup(db, g);
    if w == k {
      RecOfKey(g, n, op.key.group, op.key.name);
    }
    if w == o {
      RecOfGroup(g, op.key.group, op.key.name);
      CStringIs(g);
    }
    if op.SetValue? {
      WrittenInGroup(c, uid, stores, op.key, op.client);
    }
  }

  /** Keys keep their groups exactly when the operation is careful. */
  lemma IntegrityExact(c: Config, uid: uint32, stores: Stores, op: Op)
    requires AllGood(stores) && AllIntegral(stores) && Storable(op) && Step(c, uid, stores, op).Some?
    ensures AllIntegral(Step(c, uid, stores, op).value) <==> Careful(Contents(stores, StoreOf(c, uid, op.key)), op)
  {
    hide Good, Written, Unset, MayWrite, Fetch, LabelFor, Value, Administers, KeyRec, CString, Name;
    var r, after := StoreOf(c, uid, op.key), Step(c, uid, stores, op).value;
    var db := Contents(stores, r);
    if Careful(db, op) {
      forall x, g: Text, n: Text | Record(Contents(after, x), g, Some(n)).Some? ensures HasGroup(Contents(after, x), g) {
        StepIntegral(c, uid, stores, op, x, g, n);
      }
    } else {
      var g: Text, n: Text := "", "";
      var w := KeyRec(op.key.group, op.key.name);
      if op.SetValue? {
        g := op.key.group;
        n :| Record(db, g, Some(n)).Some?;
      } else {
        g, n := CString(w), Name(w).value;
        assert w == KeyRec(g, Some(n));
      }
      RecsApart(g, Some(n));
      StepLaw(c, uid, stores, op, r, KeyRec(g, Some(n)));
      StepLaw(c, uid, stores, op, r, KeyRec(g, None));
      assert Record(Contents(after, r), g, Some(n)).Some? && !HasGroup(Contents(after, r), g);
      assert !Integral(Contents(after, r));
    }
  }

  /** A store with group "g" and its key "n". */
  function SmallDb(): Db {
    var g, n := KeyRec("g", None), KeyRec("g", Some("n"));
    [Item(g, g, Valrec(Str(GROUP_VALUE), FLOOR)), Item(n, n, Valrec(Int32(1), FLOOR))]
  }

  lemma SmallDbHolds()
    ensures Good(SmallDb()) && Integral(SmallDb())
    ensures Record(SmallDb(), "g", None) == Some(Valrec(Str(GROUP_VALUE), FLOOR))
    ensures Record(SmallDb(), "g", Some("n")) == Some(Valrec(Int32(1), FLOOR))
    ensures Record(SmallDb(), "h", None).None? && Record(SmallDb(), "h\0n", None).None?
    ensures KeyRec("h\0n", None) == KeyRec("h", Some("n"))
  {
    assert KeyRec("h\0n", None) == KeyRec("h", Some("n"));
    hide IsKeyRec, KeyRec, CString, Name;
    var db := SmallDb();
    KeyRecParts("g", None);
    KeyRecParts("g", Some("n"));
    KeyRecParts("h", None);
    KeyRecParts("h", Some("n"));
    RecsApart("g", Some("n"));
    FindAt(db, 0);
    FindAt(db, 1);
    forall x: Text, y: Text | Record(db, x, Some(y)).Some? ensures HasGroup(db, x) {
      KeyRecParts(x, Some(y));
    }
  }

  /** One writable layer, with that store. */
  function SmallConfig(): Config {
    Config([Layer("base", System, 0, false)], Rules(false, map[]), true)
  }

  function SmallStores(): Stores {
    map["base" := SmallDb()]
  }

  lemma SmallHolds()
    ensures AllGood(SmallStores()) && AllIntegral(SmallStores())
    ensures Contents(SmallStores(), "base") == SmallDb()
    ensures forall key: Key :: key.layer == Some(LayerName("base", true)) ==>
      LayerOf(SmallConfig(), key) == Some(SmallConfig().layers[0]) && StoreOf(SmallConfig(), 0, key) == "base"
  {
    hide SmallDb, Good, Integral;
    SmallDbHolds();
    EmptyDbHolds();
    CStringIs("base");
  }

  /** A set without a name that stores a number leaves key "n" of group "g" without a
      string for its group. */
  lemma IntegrityLost()
    ensures var put := Op.SetValue(Key(Some(LayerName("base", true)), "g", None, TYPE_INT32), Int32(7), None);
      && AllIntegral(SmallStores())
      && Step(SmallConfig(), 0, SmallStores(), put).Some?
      && !AllIntegral(Step(SmallConfig(), 0, SmallStores(), put).value)
  {
    hide SmallDb, SmallStores, SmallConfig, Integral, KeyRec, Record, Written, CheckAccess, LayerOf, AllGood, AllIntegral;
    SmallHolds();
    SmallDbHolds();
    var put := Op.SetValue(Key(Some(LayerName("base", true)), "g", None, TYPE_INT32), Int32(7), None);
    SmallWritable(put.key);
    IntegrityExact(SmallConfig(), 0, SmallStores(), put);
  }

  /** A group made with a name, or with a NUL inside, is a key without a group. */
  lemma GroupMisnamed(key: Key)
    requires key.layer == Some(LayerName("base", true))
    requires (key.group == "h" && key.name == Some("n")) || (key.group == "h\0n" && key.name == None)
    ensures Step(SmallConfig(), 0, SmallStores(), CreateGroup(key, None)).Some?
    ensures !AllIntegral(Step(SmallConfig(), 0, SmallStores(), CreateGroup(key, None)).value)
  {
    hide SmallDb, SmallStores, SmallConfig, Integral, KeyRec, Record, Written, CheckAccess, LayerOf, AllGood, AllIntegral,
      IsKeyRec, Name, CString;
    SmallHolds();
    SmallDbHolds();
    SmallWritable(key);
    KeyRecParts("h", Some("n"));
    IsRec("h", Some("n"));
    IntegrityExact(SmallConfig(), 0, SmallStores(), CreateGroup(key, None));
  }

  lemma SmallWritable(key: Key)
    requires LayerOf(SmallConfig(), key) == Some(SmallConfig().layers[0])
    ensures Writable(SmallConfig(), key) && Administers(SmallConfig(), 0, key)
  {
  }

  /** Key "n" of group "g" in the one layer, looked up without a layer: with a NUL behind
      the copy of the layer's name it is found, with another character it is not. */
  lemma NamedInput()
    ensures var c, stores := SmallConfig(), SmallStores();
      var key := Key(None, "g", Some("n"), TYPE_INT32);
      && Looked(c, 0, stores, key, None, ["\0", "\0"], 0, Found(Valrec(Int32(1), FLOOR)))
      && Looked(c, 0, stores, key, None, ["!", "!"], -1, Failed(ENOENT))
  {
    hide SmallDb, Good, Integral, KeyRec, Record, CString;
    var c, stores := SmallConfig(), SmallStores();
    var layer := c.layers[0];
    var key := Key(None, "g", Some("n"), TYPE_INT32);
    SmallDbHolds();
    CStringIs("base");
    CStringIs("base!");
    assert "base" + "!" == "base!";
    NulFirst();
    TriedIn(c, 0, stores, key, None, layer, "\0");
    assert Tried(c, 0, stores, key, None, layer, "\0") == Found(Valrec(Int32(1), FLOOR));
    assert Tried(c, 0, stores, key, None, layer, "!") == Failed(EINVAL);
  }

  lemma NulFirst()
    ensures CString("\0") == ""
  {
  }

  lemma EmptyDbHolds()
    ensures Good([]) && Integral([])
  {
  }

  /** A group is never created over something. */
  lemma CreateFresh(c: Config, uid: uint32, stores: Stores, key: Key, client: Option<string>)
    requires AllGood(stores) && AllIntegral(stores) && Step(c, uid, stores, CreateGroup(key, client)).Some?
    requires key.name.None? || Plain(key.group, key.name)
    ensures Record(Contents(stores, StoreOf(c, uid, key)), key.group, key.name).None?
  {
    hide Good, Record, Fetch, Contents;
    var db := Contents(stores, StoreOf(c, uid, key));
    assert Integral(db);
    if key.name.Some? {
      var g: Text, n: Text := key.group, key.name.value;
      assert Record(db, g, Some(n)).Some? ==> HasGroup(db, g);
      assert key.name.value == n;
    }
    NotFound(c, uid, stores, key);
  }

  /** Where there is no such group, whoever may administer the layer can create it, and
      can then set its keys at once, unless labelled with the star. */
  lemma CreatorMayWrite(c: Config, uid: uint32, stores: Stores, key: Key, client: Option<string>, name: Text, data: Data)
    requires AllGood(stores) && AllIntegral(stores) && key.name.None? && NulFree(key.group) && !data.Untyped?
    requires Writable(c, key) && Administers(c, uid, key)
    requires Record(Contents(stores, StoreOf(c, uid, key)), key.group, None).None?
    ensures var created := Step(c, uid, stores, CreateGroup(key, client));
      && created.Some?
      && (Step(c, uid, created.value, SetValue(key.(name := Some(name)), data, client)).Some?
          <==> !(c.rules.enabled && client.Some? && CString(client.value) == "*"))
  {
    hide Good, Written, KeyRec, StoreOf, Contents;
    var create, k := CreateGroup(key, client), key.(name := Some(name));
    assert Step(c, uid, stores, create).Some? by { Creatable(c, uid, stores, key, client); }
    var after, r := Step(c, uid, stores, create).value, StoreOf(c, uid, key);
    StepLaw(c, uid, stores, create, r, KeyRec(key.group, None));
    StepLaw(c, uid, stores, create, r, KeyRec(key.group, Some(name)));
    RecsApart(key.group, Some(name));
    assert Integral(Contents(stores, r));
    assert StoreOf(c, uid, k) == r by { SameStore(c, uid, key, k); }
    assert Record(Contents(stores, r), key.group, Some(name)).Some? ==> HasGroup(Contents(stores, r), key.group);
    var db := Contents(after, r);
    FreshWrite(c, uid, after, k, client);
  }

  lemma SameStore(c: Config, uid: uint32, key: Key, k: Key)
    requires key.layer == k.layer
    ensures StoreOf(c, uid, key) == StoreOf(c, uid, k) && LayerOf(c, key) == LayerOf(c, k)
  {
  }

  lemma Creatable(c: Config, uid: uint32, stores: Stores, key: Key, client: Option<string>)
    requires key.name.None? && Writable(c, key) && Administers(c, uid, key)
    requires Record(Contents(stores, StoreOf(c, uid, key)), key.group, None).None?
    ensures Step(c, uid, stores, CreateGroup(key, client)).Some?
  {
  }

  /** Writing a new key needs no more than to write its group. */
  lemma FreshWrite(c: Config, uid: uint32, stores: Stores, key: Key, client: Option<string>)
    requires LayerOf(c, key).Some?
    requires var db := Contents(stores, StoreOf(c, uid, key));
      HasGroup(db, key.group) && Record(db, key.group, key.name).None?
    ensures MayWrite(c, uid, stores, key, client) <==>
      Allowed(c, client, Record(Contents(stores, StoreOf(c, uid, key)), key.group, None).value.tag, Write)
  {
    hide CheckAccess, Record;
  }

  /** After its removal nothing of a group is found by anyone. */
  lemma GroupForgotten(c: Config, uid: uint32, stores: Stores, key: Key, client: Option<string>, k: Key, reader: Option<string>)
    requires AllGood(stores) && key.name.None? && Step(c, uid, stores, RemoveGroup(key, client)).Some?
    requires k.layer == key.layer && k.group == key.group
    ensures Fetch(c, uid, Step(c, uid, stores, RemoveGroup(key, client)).value, k, reader) == Failed(ENOENT)
  {
    StepLaw(c, uid, stores, RemoveGroup(key, client), StoreOf(c, uid, key), KeyRec(key.group, None));
    StepLaw(c, uid, stores, RemoveGroup(key, client), StoreOf(c, uid, key), KeyRec(key.group, k.name));
    KeyRecParts(key.group, None);
    KeyRecParts(key.group, k.name);
  }

  lemma NotCreated(c: Config, uid: uint32, stores: Stores, op: Op, r: string, rec: string)
    requires AllGood(stores) && AllIntegral(stores) && op.CreateGroup? && Step(c, uid, stores, op).Some?
    requires Value(Contents(stores, r), rec).Some? && op.key.name.None?
    ensures !Touches(c, uid, op, r, rec)
  {
    CreateFresh(c, uid, stores, op.key, op.client);
  }

  // ---- runs ----

  datatype Call = Call(uid: uint32, op: Op)

  /** A refused operation changes nothing. */
  ghost function Run(c: Config, stores: Stores, calls: seq<Call>): Stores {
    if calls == [] then stores
    else
      var last, s := calls[|calls| - 1], Run(c, stores, calls[..|calls| - 1]);
      match Step(c, last.uid, s, last.op)
      case Some(t) => t
      case None => s
  }

  /** Values are set on keys, groups are made from groups without a NUL inside. */
  predicate Proper(op: Op) {
    && Storable(op)
    && (op.SetValue? ==> op.key.name.Some?)
    && (op.CreateGroup? ==> op.key.name.None? && NulFree(op.key.group))
  }

  lemma {:induction false} AlwaysIntegral(c: Config, stores: Stores, calls: seq<Call>)
    requires AllGood(stores) && AllIntegral(stores)
    requires forall i :: 0 <= i < |calls| ==> Proper(calls[i].op)
    ensures AllGood(Run(c, stores, calls)) && AllIntegral(Run(c, stores, calls))
  {
    hide Step, AllGood, AllIntegral;
    if calls != [] {
      var last, before := calls[|calls| - 1], calls[..|calls| - 1];
      AlwaysIntegral(c, stores, before);
      var s := Run(c, stores, before);
      if Step(c, last.uid, s, last.op).Some? {
        StepGood(c, last.uid, s, last.op);
        IntegrityExact(c, last.uid, s, last.op);
      }
    }
  }

  /** A store no call writes, because none is on it or the layer is read-only, keeps
      every record. */
  lemma {:induction false} StoreFrozen(c: Config, stores: Stores, calls: seq<Call>, r: string)
    requires forall i :: 0 <= i < |calls| ==>
      StoreOf(c, calls[i].uid, calls[i].op.key) != r || !Writable(c, calls[i].op.key)
    ensures Contents(Run(c, stores, calls), r) == Contents(stores, r)
  {
    hide MayWrite, Fetch, LabelFor, Allowed, Administers, StoreOf, Written, Unset, Record;
    if calls != [] {
      StoreFrozen(c, stores, calls[..|calls| - 1], r);
    }
  }

  /** While a record is only written, or its label is, the other of the two stays. */
  lemma {:induction false} LabelsOutlast(c: Config, stores: Stores, calls: seq<Call>, r: string, rec: string)
    requires AllGood(stores) && AllIntegral(stores) && Value(Contents(stores, r), rec).Some?
    requires forall i :: 0 <= i < |calls| ==> Proper(calls[i].op)
    requires forall i :: 0 <= i < |calls| && Touches(c, calls[i].uid, calls[i].op, r, rec) ==>
      calls[i].op.SetValue? || calls[i].op.CreateGroup? || calls[i].op.SetLabel?
    ensures var before, after := Value(Contents(stores, r), rec), Value(Contents(Run(c, stores, calls), r), rec);
      && after.Some?
      && ((forall i :: 0 <= i < |calls| && Touches(c, calls[i].uid, calls[i].op, r, rec) ==> !calls[i].op.SetLabel?)
          ==> after.value.tag == before.value.tag)
      && ((forall i :: 0 <= i < |calls| && Touches(c, calls[i].uid, calls[i].op, r, rec) ==> !calls[i].op.SetValue?)
          ==> after.value.data == before.value.data)
  {
    hide Step, AllGood, AllIntegral, Value, Touches, Contents;
    if calls != [] {
      var n := |calls| - 1;
      var last, before := calls[n], calls[..n];
      LabelsOutlast(c, stores, before, r, rec);
      AlwaysIntegral(c, stores, before);
      var s := Run(c, stores, before);
      if Step(c, last.uid, s, last.op).Some? {
        StepLaw(c, last.uid, s, last.op, r, rec);
        if last.op.CreateGroup? {
          NotCreated(c, last.uid, s, last.op, r, rec);
        }
      }
    }
  }

  /** In every run a value stays as it is, under the label it has, when all who set or unset
      it are clients that may not write that label. */
  lemma {:induction false} Protected(c: Config, stores: Stores, calls: seq<Call>, r: string, g: Text, n: Text, v: Valrec)
    requires AllGood(stores) && AllIntegral(stores) && Record(Contents(stores, r), g, Some(n)) == Some(v)
    requires forall i :: 0 <= i < |calls| ==> Proper(calls[i].op)
    requires forall i :: 0 <= i < |calls| && Touches(c, calls[i].uid, calls[i].op, r, KeyRec(g, Some(n))) ==>
      NotWriting(c, calls[i].op, v.tag)
    ensures Record(Contents(Run(c, stores, calls), r), g, Some(n)) == Some(v)
  {
    hide Step, AllGood, AllIntegral, Value, Touches, Contents, NotWriting, KeyRec;
    if calls != [] {
      var m := |calls| - 1;
      var last, before := calls[m], calls[..m];
      Protected(c, stores, before, r, g, n, v);
      AlwaysIntegral(c, stores, before);
      var s := Run(c, stores, before);
      if Step(c, last.uid, s, last.op).Some? {
        StepLaw(c, last.uid, s, last.op, r, KeyRec(g, Some(n)));
        if last.op.CreateGroup? {
          NotCreated(c, last.uid, s, last.op, r, KeyRec(g, Some(n)));
        } else if Touches(c, last.uid, last.op, r, KeyRec(g, Some(n))) {
          Refused(c, last.uid, s, last.op, r, g, n, v);
        }
      }
    }
  }

  /** A client without write access to the label sets or unsets a key. */
  predicate NotWriting(c: Config, op: Op, tag: string) {
    || op.CreateGroup?
    || (&& (op.SetValue? || op.UnsetValue?) && op.key.name.Some? && op.client.Some?
        && !CheckAccess(c.rules, CString(op.client.value), CString(tag), Write))
  }

  lemma Refused(c: Config, uid: uint32, stores: Stores, op: Op, r: string, g: Text, n: Text, v: Valrec)
    requires AllGood(stores) && Storable(op) && Record(Contents(stores, r), g, Some(n)) == Some(v)
    requires !op.CreateGroup? && Touches(c, uid, op, r, KeyRec(g, Some(n))) && NotWriting(c, op, v.tag)
    ensures Step(c, uid, stores, op) == None
  {
    hide Step, CheckAccess, Value, Good, CString, Contents, ResourceName;
    RecOfKey(g, n, op.key.group, op.key.name);
    if op.SetValue? {
      SetExact(c, uid, stores, op.key, op.data, op.client);
    } else {
      UnsetExact(c, uid, stores, op.key, op.client);
    }
  }

  // ---- the operations ----

  lemma FetchSame(c: Config, uid: uint32, a: Stores, b: Stores, key: Key, client: Option<string>, behind: string)
    requires Same(b, a)
    ensures Fetch(c, uid, a, key, client) == Fetch(c, uid, b, key, client)
    ensures FetchBehind(c, uid, a, key, client, behind) == FetchBehind(c, uid, b, key, client, behind)
  {
    hide Allowed, Record, ResourceName;
  }

  lemma SameTrans(a: Stores, b: Stores, c: Stores)
    requires Same(b, a) && Same(c, b)
    ensures Same(c, a)
  {
  }

  lemma SameInto(before: Stores, now: Stores, after: Stores, r: string, db: Db)
    requires Same(now, before) && Same(after, now[r := db])
    ensures Same(after, before[r := db])
  {
    forall x ensures Contents(after, x) == Contents(before[r := db], x) {
      assert Contents(after, x) == Contents(now[r := db], x);
      assert Contents(now, x) == Contents(before, x);
    }
  }

  /** The loop of get_value, on one layer more. */
  lemma ChooseStep(layers: seq<Layer>, answers: seq<Answer>, n: nat, best: int)
    requires |layers| == |answers| && Choosing(layers, answers, n, best) && n < |layers|
    ensures Choosing(layers, answers, n + 1,
      if answers[n].Found? && (best < 0 || !Below(layers[n], layers[best])) then n else best)
  {
  }

  /** Once the group is there, looking for any type finds the key or not. */
  lemma AnyType(c: Config, uid: uint32, stores: Stores, key: Key)
    requires Fetch(c, uid, stores, GroupKey(key), None).Found?
    ensures var a := Fetch(c, uid, stores, key.(kind := TYPE_UNSET), None); a.Found? || a == Failed(ENOENT)
  {
  }

  /** set_value in terms of its two look-ups. */
  lemma SetStep(c: Config, uid: uint32, stores: Stores, key: Key, data: Data, client: Option<string>)
    ensures var group := Fetch(c, uid, stores, GroupKey(key), None);
      var now := Fetch(c, uid, stores, key.(kind := TYPE_UNSET), None);
      Step(c, uid, stores, SetValue(key, data, client)) ==
      if group.Found? && Allowed(c, client, group.rec.tag, Write)
        && (now.Found? ==> Allowed(c, client, now.rec.tag, Write)) && Writable(c, key)
      then Some(WriteTo(c, uid, stores, key, Some(data),
        if now.Found? then now.rec.tag else if client.Some? then client.value else FLOOR))
      else None
  {
  }

  lemma FoundUnsettable(db: Db, key: Key)
    ensures Got(db, key).Found? ==> Unsettable(db, key)
  {
    hide KeyRec;
    KeyRecParts(key.group, None);
  }

  lemma NoneYet(layers: seq<Layer>, answers: seq<Answer>)
    requires |layers| == |answers|
    ensures Choosing(layers, answers, 0, -1)
  {
  }

  lemma InLayers(layers: seq<Layer>, l: Layer)
    requires l in layers
    ensures LayerAt(layers, l.name).Some?
  {
  }

  function After(behind: seq<string>, i: nat): seq<string> {
    if i < |behind| then behind[i..] else []
  }

  lemma NoneAfter(behind: seq<string>)
    ensures After(behind, 0) == behind
  {
  }

  /** Looking the key up copies it without the NUL of its layer. */
  predicate Copies(c: Config, key: Key) {
    LayerOf(c, key).Some? && key.name.Some? && !Sealed(key)
  }

  /** A caller's key. Its layer and type are written to by the look-ups. */
  class KeyCell {
    var layer: Option<LayerName>
    const group: string
    const name: Option<string>
    var kind: nat

    constructor (key: Key)
      ensures K() == key
    {
      layer, group, name, kind := key.layer, key.group, key.name, key.kind;
    }

    function K(): Key
      reads this
    {
      Key(layer, group, name, kind)
    }
  }

  class BuxtonControl {
    const config: Config
    const backend: MemoryBackend
    /** The user the control acts for, and the user last noted in each layer. */
    var uid: uint32
    var layerUid: map<Text, uint32>
    /** What memory will hold behind the coming copies that leave out the NUL. */
    var behind: seq<string>

    constructor (config: Config, behind: seq<string>)
      ensures Valid() && this.config == config && backend.resources == map[] && fresh(backend)
      ensures this.behind == behind
    {
      this.config, this.behind := config, behind;
      backend := new MemoryBackend();
      uid, layerUid := 0, map[];
      new;
      assert forall r :: Contents(backend.resources, r) == [];
    }

    ghost predicate Valid()
      reads backend
    {
      AllGood(backend.resources)
    }

    ghost predicate Noted(l: Layer)
      reads this
    {
      l.name in layerUid && layerUid[l.name] == uid
    }

    /** The group is looked up with a copy of the key; the copy takes in what is behind it
        unless the layer is closed. */
    method GetValueForLayer(key: Key, client: Option<string>) returns (answer: Answer)
      requires Valid()
      modifies this`layerUid, this`behind, backend
      ensures Valid() && Same(backend.resources, old(backend.resources))
      ensures answer == FetchBehind(config, uid, old(backend.resources), key, client, Behind(old(behind), 0))
      ensures Sealed(key) || key.name.None? ==> answer == Fetch(config, uid, old(backend.resources), key, client)
      ensures behind == if Copies(config, key) then After(old(behind), 1) else old(behind)
      ensures LayerOf(config, key).Some? ==> Noted(LayerOf(config, key).value)
      decreases key.name.Some?
    {
      hide AllGood, CheckAccess, ResourceName, Got, Fetch, GroupAnswer, Behind, After;
      if Sealed(key) || key.name.None? {
        ClosedSame(config, uid, backend.resources, key, client, Behind(behind, 0));
      }
      if key.layer.None? {
        return Failed(EINVAL);
      }
      var layer := LayerAt(config.layers, CString(key.layer.value.name));
      if layer.None? {
        return Failed(EINVAL);
      }
      var l := layer.value;
      layerUid := layerUid[l.name := uid];
      ghost var behind0 := behind;
      var groupLabel := "";
      if key.name.Some? {
        var group := CopiedKey(key, Behind(behind, 0));
        if !key.layer.value.closed {
          behind := After(behind, 1);
        }
        GroupFetched(config, uid, backend.resources, key, Behind(behind0, 0));
        var g := GetValueForLayer(group, None);
        layerUid := layerUid[l.name := uid];
        if g.Failed? {
          return g;
        }
        groupLabel := g.rec.tag;
      }
      if key.name.Some? && client.Some? {
        if !CheckAccess(config.rules, CString(client.value), CString(groupLabel), Read) {
          return Failed(EPERM);
        }
      }
      answer := backend.GetValue(l, layerUid[l.name], key);
      if answer.Found? && client.Some?
        && !CheckAccess(config.rules, CString(client.value), CString(answer.rec.tag), Read)
      {
        answer := Failed(EPERM);
      }
    }

    /** Without a layer the key's layer is used to try each in turn. It is taken away
        again when one is chosen, but not otherwise. The answer is the one meant when the
        key has no name, or every copy finds a NUL behind it. */
    method GetValue(key: KeyCell, client: Option<string>) returns (answer: Answer, ghost chosen: int)
      requires Valid()
      modifies this`layerUid, this`behind, backend, key`layer
      ensures Valid() && Same(backend.resources, old(backend.resources))
      ensures old(key.layer).Some? ==>
        && key.layer == old(key.layer)
        && answer == FetchBehind(config, uid, old(backend.resources), key.K(), client, Behind(old(behind), 0))
      ensures old(key.layer).None? ==>
        && Looked(config, uid, old(backend.resources), old(key.K()), client, old(behind), chosen, answer)
        && key.layer == if chosen >= 0 || config.layers == [] then None
                        else Some(LayerName(config.layers[|config.layers| - 1].name, false))
      ensures old(key.layer).None? && (key.name.None? || forall i :: 0 <= i < |old(behind)| ==> CString(old(behind)[i]) == "") ==>
        Resolves(config, uid, old(backend.resources), old(key.K()), client, answer)
    {
      hide AllGood, Fetch, FetchBehind, Below, Best, Choosing, CString, Tried, Looked, Resolves, Answers, Copies, Behind, After;
      if key.layer.Some? {
        answer := GetValueForLayer(key.K(), client);
        return answer, -1;
      }
      ghost var stores, k, bs := backend.resources, key.K(), behind;
      ghost var answers := Answers(config, uid, stores, k, client, bs);
      var layers := config.layers;
      var layer: Option<LayerName>, priority, origin: Option<Kind> := None, 0, None;
      var i := 0;
      chosen := -1;
      NoneYet(layers, answers);
      NoneAfter(bs);
      while i < |layers|
        invariant Valid() && Same(backend.resources, stores)
        invariant 0 <= i <= |layers| && -1 <= chosen < i && Choosing(layers, answers, i, chosen)
        invariant chosen < 0 ==> layer == None && priority == 0 && origin == None
        invariant chosen >= 0 ==> layer == Some(LayerName(layers[chosen].name, false))
        invariant chosen >= 0 ==> priority == layers[chosen].priority && origin == Some(layers[chosen].kind)
        invariant key.layer == if i == 0 then None else Some(LayerName(layers[i - 1].name, false))
        invariant key.name.Some? ==> behind == After(bs, i)
      {
        var l := layers[i];
        key.layer := Some(LayerName(l.name, false));
        TryLayer(stores, backend.resources, k, client, bs, i);
        ChooseStep(layers, answers, i, chosen);
        TurnsOver(layers, i, chosen);
        var d := GetValueForLayer(key.K(), client);
        if d.Found? {
          if (l.kind == System && (origin != Some(System) || priority <= l.priority))
            || (l.kind == User && origin != Some(System) && priority <= l.priority)
          {
            origin := Some(l.kind);
            priority := l.priority;
            layer := Some(LayerName(l.name, false));
            chosen := i;
          }
        }
        i := i + 1;
      }
      if layer.None? {
        answer := Failed(ENOENT);
      } else {
        key.layer := layer;
        TryLast(stores, backend.resources, k, client, bs, chosen);
        answer := GetValueForLayer(key.K(), client);
        key.layer := None;
      }
      Chosen(stores, k, client, bs, chosen, answer);
      if key.name.None? {
        UnnamedMeant(config, uid, stores, k, client, bs, chosen, answer);
      } else if forall i :: 0 <= i < |bs| ==> CString(bs[i]) == "" {
        NulsMeant(config, uid, stores, k, client, bs, chosen, answer);
      }
    }

    lemma Chosen(stores: Stores, k: Key, client: Option<string>, bs: seq<string>, chosen: int, answer: Answer)
      requires Choosing(config.layers, Answers(config, uid, stores, k, client, bs), |config.layers|, chosen)
      requires answer == if chosen < 0 then Failed(ENOENT)
        else Tried(config, uid, stores, k, client, config.layers[chosen], Behind(bs, |config.layers|))
      ensures Looked(config, uid, stores, k, client, bs, chosen, answer)
      ensures Looked(config, uid, stores, k, client, [], chosen, answer) ==>
        Resolves(config, uid, stores, k, client, answer)
    {
    }

    /** What GetValueForLayer will answer for the next layer. */
    lemma TryLayer(stores: Stores, now: Stores, k: Key, client: Option<string>, bs: seq<string>, i: nat)
      requires Same(now, stores) && i < |config.layers|
      ensures var key := k.(layer := Some(LayerName(config.layers[i].name, false)));
        var answer := Answers(config, uid, stores, k, client, bs)[i];
        && (key.name.Some? ==> Behind(After(bs, i), 0) == Behind(bs, i))
        && answer == FetchBehind(config, uid, now, key, client, Behind(bs, i))
        && (key.name.None? ==> forall b: string :: answer == FetchBehind(config, uid, now, key, client, b))
        && (key.name.Some? ==> Copies(config, key) && After(After(bs, i), 1) == After(bs, i + 1))
    {
      var l := config.layers[i];
      var key := k.(layer := Some(LayerName(l.name, false)));
      FetchSame(config, uid, stores, now, key, client, Behind(bs, i));
      CStringIs(l.name);
      InLayers(config.layers, l);
      hide Fetch, FetchBehind;
      if key.name.None? {
        forall b: string
          ensures FetchBehind(config, uid, now, key, client, Behind(bs, i)) == FetchBehind(config, uid, now, key, client, b)
        {
          ClosedSame(config, uid, now, key, client, b);
          ClosedSame(config, uid, now, key, client, Behind(bs, i));
        }
      }
    }

    /** And for the one chosen, in the end. */
    lemma TryLast(stores: Stores, now: Stores, k: Key, client: Option<string>, bs: seq<string>, i: nat)
      requires Same(now, stores) && i < |config.layers|
      ensures var key := k.(layer := Some(LayerName(config.layers[i].name, false)));
        var answer := Tried(config, uid, stores, k, client, config.layers[i], Behind(bs, |config.layers|));
        && (key.name.Some? ==> Behind(After(bs, |config.layers|), 0) == Behind(bs, |config.layers|))
        && answer == FetchBehind(config, uid, now, key, client, Behind(bs, |config.layers|))
        && (key.name.None? ==> forall b: string :: answer == FetchBehind(config, uid, now, key, client, b))
    {
      var n := |config.layers|;
      var key := k.(layer := Some(LayerName(config.layers[i].name, false)));
      FetchSame(config, uid, stores, now, key, client, Behind(bs, n));
      hide Fetch, FetchBehind;
      if key.name.None? {
        forall b: string
          ensures FetchBehind(config, uid, now, key, client, Behind(bs, n)) == FetchBehind(config, uid, now, key, client, b)
        {
          ClosedSame(config, uid, now, key, client, b);
          ClosedSame(config, uid, now, key, client, Behind(bs, n));
        }
      }
    }

    /** The test in the loop says whether the layer is not below the one preferred. */
    lemma TurnsOver(layers: seq<Layer>, i: nat, best: int)
      requires i < |layers| && -1 <= best < i
      ensures var l := layers[i];
        best >= 0 ==>
          var origin, priority := layers[best].kind, layers[best].priority;
          ((l.kind == System && (origin != System || priority <= l.priority))
            || (l.kind == User && origin != System && priority <= l.priority)) <==> !Below(l, layers[best])
    {
    }

    /** The operation was done, or was refused and changed nothing. */
    ghost predicate Performed(before: Stores, op: Op, ok: bool)
      reads this`uid, backend
    {
      var after := Step(config, uid, before, op);
      && (ok <==> after.Some?)
      && Same(backend.resources, if ok then after.value else before)
    }

    method SetValue(key: KeyCell, data: Data, client: Option<string>) returns (ok: bool)
      requires Valid() && !data.Untyped? && Sealed(key.K())
      modifies this`layerUid, this`behind, backend, key`kind
      ensures Valid() && key.kind == old(key.kind)
      ensures Performed(old(backend.resources), Op.SetValue(old(key.K()), data, client), ok)
    {
      hide FetchBehind, Behind, After, Copies, CString, AllGood, Fetch, CheckAccess, ResourceName, Written, KeyRec, Contents, Same, Step;
      ghost var stores := backend.resources;
      SetStep(config, uid, stores, key.K(), data, client);
      var group := GetValueForLayer(GroupKey(key.K()), None);
      if group.Failed? {
        return false;
      }
      if client.Some? && !CheckAccess(config.rules, CString(client.value), CString(group.rec.tag), Write) {
        return false;
      }
      AnyType(config, uid, stores, key.K());
      var memo := key.kind;
      key.kind := TYPE_UNSET;
      FetchSame(config, uid, stores, backend.resources, key.K(), None, "");
      ghost var first := backend.resources;
      var d := GetValueForLayer(key.K(), None);
      SameTrans(stores, first, backend.resources);
      key.kind := memo;
      if d == Failed(-ENOENT) || d == Failed(EINVAL) {
        return false;
      }
      var l := FLOOR;
      if d.Found? {
        if client.Some? && !CheckAccess(config.rules, CString(client.value), CString(d.rec.tag), Write) {
          return false;
        }
        l := d.rec.tag;
      } else if client.Some? {
        l := client.value;
      }
      var layer := if key.layer.Some? then LayerAt(config.layers, CString(key.layer.value.name)) else None;
      if layer.None? || layer.value.readonly {
        return false;
      }
      layerUid := layerUid[layer.value.name := uid];
      ghost var mid := backend.resources;
      var ret := backend.SetValue(layer.value, layerUid[layer.value.name], key.K(), Some(data), l);
      SameInto(stores, mid, backend.resources, ResourceName(layer.value, uid),
        Written(Contents(mid, ResourceName(layer.value, uid)), KeyRec(key.group, key.name), Some(data), l));
      ok := ret == 0;
    }
  
    /** The root check of the administrative operations. */
    predicate RootRefused(layer: Layer)
      reads this`uid
    {
      layer.kind == System && uid != 0 && !config.skipRoot
    }

    method SetLabel(key: Key, tag: string) returns (ok: bool)
      requires Valid() && key.layer.Some?
      modifies this`layerUid, this`behind, backend
      ensures Valid() && Performed(old(backend.resources), Op.SetLabel(key, tag), ok)
    {
      hide AllGood, ResourceName, Written, KeyRec, Contents;
      ghost var stores := backend.resources;
      var layer := LayerAt(config.layers, CString(key.layer.value.name));
      if layer.None? || layer.value.readonly {
        return false;
      }
      if layer.value.kind == System {
        if RootRefused(layer.value) {
          return false;
        }
      } else {
        return false;
      }
      layerUid := layerUid[layer.value.name := uid];
      var ret := backend.SetValue(layer.value, layerUid[layer.value.name], key, None, tag);
      ok := ret == 0;
    }

    method CreateGroup(key: Key, client: Option<string>) returns (ok: bool)
      requires Valid() && key.layer.Some? && Sealed(key)
      modifies this`layerUid, this`behind, backend
      ensures Valid() && Performed(old(backend.resources), Op.CreateGroup(key, client), ok)
    {
      hide FetchBehind, Behind, After, Copies, CString, AllGood, Fetch, ResourceName, Written, KeyRec, Contents;
      ghost var stores := backend.resources;
      var layer := LayerAt(config.layers, CString(key.layer.value.name));
      if layer.None? || layer.value.readonly || RootRefused(layer.value) {
        return false;
      }
      var group := GetValueForLayer(key, None);
      if group != Failed(ENOENT) {
        return false;
      }
      layerUid := layerUid[layer.value.name := uid];
      ghost var mid := backend.resources;
      var tag := if client.Some? then client.value else FLOOR;
      var ret := backend.SetValue(layer.value, layerUid[layer.value.name], key, Some(Str(GROUP_VALUE)), tag);
      SameInto(stores, mid, backend.resources, ResourceName(layer.value, uid),
        Written(Contents(mid, ResourceName(layer.value, uid)), KeyRec(key.group, key.name), Some(Str(GROUP_VALUE)), tag));
      ok := ret == 0;
    }

    method RemoveGroup(key: Key, client: Option<string>) returns (ok: bool)
      requires Valid() && key.layer.Some? && Sealed(key)
      modifies this`layerUid, this`behind, backend
      ensures Valid() && Performed(old(backend.resources), Op.RemoveGroup(key, client), ok)
    {
      hide FetchBehind, Behind, After, Copies, CString, AllGood, CheckAccess, ResourceName, Unset, Contents, Got;
      ghost var stores := backend.resources;
      var layer := LayerAt(config.layers, CString(key.layer.value.name));
      if layer.None? || layer.value.readonly || RootRefused(layer.value) {
        return false;
      }
      var group := GetValueForLayer(key, None);
      if group.Failed? {
        return false;
      }
      if layer.value.kind == User {
        if client.Some? && !CheckAccess(config.rules, CString(client.value), CString(group.rec.tag), Write) {
          return false;
        }
      }
      layerUid := layerUid[layer.value.name := uid];
      ghost var mid, r := backend.resources, ResourceName(layer.value, uid);
      FoundUnsettable(Contents(stores, r), key);
      var ret := backend.UnsetValue(layer.value, layerUid[layer.value.name], key);
      SameInto(stores, mid, backend.resources, r, Unset(Contents(mid, r), key));
      ok := ret == 0;
    }

    method UnsetValue(key: Key, client: Option<string>) returns (ok: bool)
      requires Valid() && Sealed(key)
      modifies this`layerUid, this`behind, backend
      ensures Valid() && Performed(old(backend.resources), Op.UnsetValue(key, client), ok)
    {
      hide FetchBehind, Behind, After, Copies, CString, AllGood, Fetch, CheckAccess, ResourceName, Unset, Contents, Unsettable;
      ghost var stores := backend.resources;
      var group := GetValueForLayer(GroupKey(key), None);
      if group.Failed? {
        return false;
      }
      if client.Some? {
        if !CheckAccess(config.rules, CString(client.value), CString(group.rec.tag), Write) {
          return false;
        }
        FetchSame(config, uid, stores, backend.resources, key, None, "");
        var d := GetValueForLayer(key, None);
        if d.Found? {
          if !CheckAccess(config.rules, CString(client.value), CString(d.rec.tag), Write) {
            return false;
          }
        } else {
          return false;
        }
      }
      var layer := if key.layer.Some? then LayerAt(config.layers, CString(key.layer.value.name)) else None;
      if layer.None? || layer.value.readonly {
        return false;
      }
      layerUid := layerUid[layer.value.name := uid];
      ghost var mid, r := backend.resources, ResourceName(layer.value, uid);
      var ret := backend.UnsetValue(layer.value, layerUid[layer.value.name], key);
      SameInto(stores, mid, backend.resources, r, Unset(Contents(mid, r), key));
      ok := ret == 0;
    }
  }
}
