/** The compile state of lessql/expr/base.py: a ChainMap-backed stack of
    scopes. Python lists are mutable objects shared by reference, so list
    values are ids into a store of sequences; copying a list allocates a new id. */
module States {
  import opened Results
  import opened Precedences

  /** A value bound in a scope: None, a Precedence, a string, or a list. */
  datatype Value = NoneV | PrecV(prec: Prec) | TextV(text: string) | ListV(id: nat)

  type Frame = map<string, Value>

  /** A ChainMap always holds at least one map. */
  type Frames = fs: seq<Frame> | |fs| > 0 witness [map[]]

  /** frames[0] is the innermost scope (ChainMap.maps order); store[id] holds
      the elements of list id. */
  datatype State<E> = State(frames: Frames, store: seq<seq<E>>)

  /** Every list a frame refers to exists in a store of the given size. */
  predicate FrameValid(f: Frame, storeSize: nat)
  {
    forall k :: k in f && f[k].ListV? ==> f[k].id < storeSize
  }

  predicate Valid<E>(st: State<E>)
  {
    forall i :: 0 <= i < |st.frames| ==> FrameValid(st.frames[i], |st.store|)
  }

  /** Index of the innermost frame binding name, or |frames| if none does. */
  function Depth(frames: seq<Frame>, name: string): (i: nat)
    ensures i <= |frames|
    ensures forall j :: 0 <= j < i ==> name !in frames[j]
    ensures i < |frames| ==> name in frames[i]
  {
    if |frames| == 0 then 0
    else if name in frames[0] then 0
    else 1 + Depth(frames[1..], name)
  }

  /** ChainMap.__getitem__: the innermost binding of name. */
  function Lookup(frames: seq<Frame>, name: string): (r: Option<Value>)
    ensures r.None? <==> Depth(frames, name) == |frames|
    ensures r.Some? ==> r.value == frames[Depth(frames, name)][name]
  {
    if |frames| == 0 then None
    else if name in frames[0] then Some(frames[0][name])
    else Lookup(frames[1..], name)
  }

  /** State.__getattr__: the innermost binding, or AttributeError. */
  function Get<E>(st: State<E>, name: string): (r: Result<Value, Error>)
    ensures r.Err? <==> forall j :: 0 <= j < |st.frames| ==> name !in st.frames[j]
    ensures r.Err? ==> r.error == AttributeError(name)
    ensures r.Ok? ==> r.value == st.frames[Depth(st.frames, name)][name]
  {
    var v := Lookup(st.frames, name);
    if v.Some? then Ok(v.value) else Err(AttributeError(name))
  }

  /** State.__setattr__: object defines no __getattr__, so the lookup of it
      always fails and the ChainMap assignment binds in the innermost frame. */
  function Set<E>(st: State<E>, name: string, v: Value): (r: State<E>)
    ensures |r.frames| == |st.frames| && r.frames[1..] == st.frames[1..] && r.store == st.store
    ensures Get(r, name) == Ok(v)
    ensures forall n :: n != name ==> Lookup(r.frames, n) == Lookup(st.frames, n)
  {
    var r := State(st.frames[0 := st.frames[0][name := v]], st.store);
    assert r.frames[1..] == st.frames[1..];
    r
  }

  /** copy.copy of a value: lists get a new identity with the same elements,
      immutable values are returned equal. */
  function Copy<E>(v: Value, store: seq<seq<E>>): (r: (Value, seq<seq<E>>))
    requires v.ListV? ==> v.id < |store|
    ensures v.ListV? ==> r.0 == ListV(|store|) && r.1 == store + [store[v.id]]
    ensures !v.ListV? ==> r.0 == v && r.1 == store
  {
    if v.ListV? then (ListV(|store|), store + [store[v.id]]) else (v, store)
  }

  /** The mapping push builds from its positional names, copying each name's
      current value left to right; a repeated name keeps its last copy. A name
      bound nowhere raises KeyError (ChainMap.__getitem__). */
  function CopyNames<E>(st: State<E>, names: seq<string>): (r: Result<(Frame, seq<seq<E>>), Error>)
    requires Valid(st)
    decreases |names|
    ensures r.Ok? <==> forall n :: n in names ==> Lookup(st.frames, n).Some?
    ensures r.Err? ==> r.error.KeyError?
    ensures r.Ok? ==> r.value.0.Keys == set n | n in names
    ensures r.Ok? ==> |st.store| <= |r.value.1| && r.value.1[..|st.store|] == st.store
    ensures r.Ok? ==> FrameValid(r.value.0, |r.value.1|)
  {
    if |names| == 0 then Ok((map[], st.store))
    else
      var n := names[|names| - 1];
      assert names == names[..|names| - 1] + [n];
      var before := CopyNames(st, names[..|names| - 1]);
      if before.Err? then
        assert exists m :: m in names[..|names| - 1] && Lookup(st.frames, m).None?;
        before.PropagateFailure()
      else
        var prev := before.value;
        var v := Lookup(st.frames, n);
        if v.None? then
          assert n in names && Lookup(st.frames, n).None?;
          Err(KeyError(n))
        else
          var c := Copy(v.value, prev.1);
          Ok((prev.0[n := c.0], c.1))
  }

  /** ChainMap.new_child: a new innermost frame. */
  function PushFrame<E>(st: State<E>, f: Frame): (r: State<E>)
    ensures |r.frames| == |st.frames| + 1 && r.frames[0] == f && r.frames[1..] == st.frames
    ensures r.store == st.store
  {
    State([f] + st.frames, st.store)
  }

  /** State.push(*names, **kw): one new frame holding copies of the named
      values, overridden by the keyword bindings. */
  function Push<E>(st: State<E>, names: seq<string>, kw: Frame): (r: Result<State<E>, Error>)
    requires Valid(st)
    ensures r.Ok? <==> forall n :: n in names ==> Lookup(st.frames, n).Some?
    ensures r.Err? ==> r.error.KeyError?
    ensures r.Ok? ==> |r.value.frames| == |st.frames| + 1 && r.value.frames[1..] == st.frames
    ensures r.Ok? ==> r.value.frames[0].Keys == (set n | n in names) + kw.Keys
    ensures r.Ok? ==> |st.store| <= |r.value.store| && r.value.store[..|st.store|] == st.store
    ensures r.Ok? && FrameValid(kw, |st.store|) ==> Valid(r.value)
    ensures names == [] ==> r == Ok(PushFrame(st, kw))
  {
    var c :- CopyNames(st, names);
    var r := State([c.0 + kw] + st.frames, c.1);
    assert r.frames[1..] == st.frames;
    assert names == [] ==> c.0 + kw == kw;
    Ok(r)
  }

  /** ChainMap.parents: the frames below the innermost one; a chain of a
      single map yields one fresh empty map. */
  function Parents(frames: Frames): (r: Frames)
    ensures |frames| > 1 ==> r == frames[1..]
    ensures |frames| == 1 ==> r == [map[]]
  {
    if |frames| == 1 then [map[]] else frames[1..]
  }

  /** State.pop, which sets the chain to `maps.parents`. The `parent`
      property builds a new State over that same chain, so as a value it is
      Pop(st); calling it, `state.parent()`, then pushes an empty scope, which
      the compiler models as Push(Pop(st), [], map[]) and leaves st alone. */
  function Pop<E>(st: State<E>): (r: State<E>)
    ensures |st.frames| > 1 ==> |r.frames| == |st.frames| - 1
    ensures r.store == st.store
    ensures Valid(st) ==> Valid(r)
  {
    State(Parents(st.frames), st.store)
  }

  /** State.__len__: the number of frames. */
  function Len<E>(st: State<E>): nat
  {
    |st.frames|
  }

  /** The number of frames binding name. */
  function Count(frames: seq<Frame>, name: string): (n: nat)
    ensures n <= |frames|
  {
    if |frames| == 0 then 0
    else (if name in frames[0] then 1 else 0) + Count(frames[1..], name)
  }

  /** State.getall(name, missing, default): the values of name from the
      innermost frame outwards; frames lacking it are skipped unless missing,
      in which case they contribute default. */
  function GetAll(frames: seq<Frame>, name: string, missing: bool, default: Value): (r: seq<Value>)
    ensures missing ==> |r| == |frames|
    ensures missing ==> forall i :: 0 <= i < |frames| ==>
                          r[i] == (if name in frames[i] then frames[i][name] else default)
    ensures !missing ==> |r| == Count(frames, name)
    ensures !missing ==> (|r| == 0 <==> Lookup(frames, name).None?)
    ensures !missing && |r| > 0 ==> r[0] == Lookup(frames, name).value
  {
    if |frames| == 0 then []
    else
      var rest := GetAll(frames[1..], name, missing, default);
      if name in frames[0] then [frames[0][name]] + rest
      else if missing then [default] + rest
      else rest
  }

  /** Without missing, every frame binding name contributes its value, in
      frame order: the frame at index i comes after the bindings of the
      frames inside it. */
  lemma {:induction false} GetAllPresent(frames: seq<Frame>, name: string, default: Value, i: nat)
    requires i < |frames| && name in frames[i]
    ensures Count(frames[..i], name) < |GetAll(frames, name, false, default)|
    ensures GetAll(frames, name, false, default)[Count(frames[..i], name)] == frames[i][name]
  {
    if i == 0 {
      assert frames[..0] == [];
    } else {
      GetAllPresent(frames[1..], name, default, i - 1);
      assert frames[..i][1..] == frames[1..][..i - 1];
    }
  }

  /** State.compact: one dictionary with every visible name and its
      innermost value. */
  function Compact(frames: seq<Frame>): (r: Frame)
    ensures forall n :: n in r <==> Lookup(frames, n).Some?
    ensures forall n :: n in r ==> r[n] == Lookup(frames, n).value
  {
    if |frames| == 0 then map[] else Compact(frames[1..]) + frames[0]
  }

  /** `state.<name>.append(x)`: mutates the list bound to name in place, so
      every frame sharing that list sees the new element. */
  function Append<E>(st: State<E>, name: string, x: E): (r: Result<State<E>, Error>)
    requires Valid(st)
    ensures r.Ok? <==> Get(st, name).Ok? && Get(st, name).value.ListV?
    ensures r.Ok? ==> r.value.frames == st.frames && |r.value.store| == |st.store|
    ensures r.Ok? ==> r.value.store[Get(st, name).value.id] == st.store[Get(st, name).value.id] + [x]
    ensures r.Ok? ==> forall j :: 0 <= j < |st.store| && j != Get(st, name).value.id ==>
                        r.value.store[j] == st.store[j]
    ensures r.Ok? ==> Valid(r.value)
  {
    var v :- Get(st, name);
    if v.ListV? then
      assert FrameValid(st.frames[Depth(st.frames, name)], |st.store|);
      Ok(State(st.frames, st.store[v.id := st.store[v.id] + [x]]))
    else Err(AttributeError("append"))
  }

  /** state_factory(*names, **kw): a root frame with precedence Precedence(0)
      and an empty parameter list, then one pushed frame. */
  function Factory<E>(names: seq<string>, kw: Frame): (r: Result<State<E>, Error>)
    ensures r.Ok? <==> forall n :: n in names ==> n == "precedence" || n == "parameters"
    ensures r.Ok? ==> |r.value.frames| == 2 && |r.value.store| >= 1 && r.value.store[0] == []
    ensures r.Ok? ==> r.value.frames[1] == map["precedence" := PrecV(Prec(0, NonAssoc)),
                                                "parameters" := ListV(0)]
    ensures r.Ok? && FrameValid(kw, 1) ==> Valid(r.value)
  {
    var root := State([Root()], [[]]);
    RootLookup();
    Push(root, names, kw)
  }

  function Root(): (f: Frame)
    ensures f.Keys == {"precedence", "parameters"} && FrameValid(f, 1)
  {
    map["precedence" := PrecV(Make(Some(0), None)), "parameters" := ListV(0)]
  }

  lemma RootLookup()
    ensures forall n :: Lookup([Root()], n).Some? <==> n == "precedence" || n == "parameters"
  {
    forall n ensures Lookup([Root()], n).Some? <==> n == "precedence" || n == "parameters" {
      assert [Root()][1..] == [];
    }
  }

  /** A copied name is bound, in the new mapping, to an equal immutable value
      or to a new list (an id outside the old store) with the same elements. */
  lemma {:induction false} CopyNamesBinding<E>(st: State<E>, names: seq<string>, n: string)
    requires Valid(st) && CopyNames(st, names).Ok? && n in names
    ensures var c := CopyNames(st, names).value; var v := Lookup(st.frames, n).value;
      n in c.0 &&
      (v.ListV? ==> c.0[n].ListV? && |st.store| <= c.0[n].id < |c.1| && c.1[c.0[n].id] == st.store[v.id]) &&
      (!v.ListV? ==> c.0[n] == v)
    decreases |names|
  {
    var last := names[|names| - 1];
    var init := names[..|names| - 1];
    assert names == init + [last];
    var prev := CopyNames(st, init).value;
    var v := Lookup(st.frames, n).value;
    if n == last {
      assert FrameValid(st.frames[Depth(st.frames, n)], |st.store|);
      assert prev.1[..|st.store|] == st.store;
      if v.ListV? {
        assert prev.1[v.id] == st.store[v.id];
      }
    } else {
      assert n in init;
      CopyNamesBinding(st, init, n);
    }
  }

  /** What a pushed state sees: keyword bindings first, then copies of the
      named values, and otherwise the same binding as before the push. */
  lemma PushBinding<E>(st: State<E>, names: seq<string>, kw: Frame, n: string)
    requires Valid(st) && Push(st, names, kw).Ok?
    ensures var r := Push(st, names, kw).value; var old_ := Lookup(st.frames, n);
      (n in kw ==> Lookup(r.frames, n) == Some(kw[n])) &&
      (n !in kw && n !in names ==> Lookup(r.frames, n) == old_) &&
      (n !in kw && n in names ==>
        old_.Some? && Lookup(r.frames, n).Some? &&
        (old_.value.ListV? ==>
          Lookup(r.frames, n).value.ListV? &&
          |st.store| <= Lookup(r.frames, n).value.id < |r.store| &&
          r.store[Lookup(r.frames, n).value.id] == st.store[old_.value.id]) &&
        (!old_.value.ListV? ==> Lookup(r.frames, n).value == old_.value))
  {
    var r := Push(st, names, kw).value;
    assert r.frames[1..] == st.frames;
    if n !in kw && n in names {
      CopyNamesBinding(st, names, n);
    }
  }

  /** push followed by pop gives back the frames it started from; lists
      created by the copies stay allocated but nothing refers to them. */
  lemma PushPopRestores<E>(st: State<E>, names: seq<string>, kw: Frame)
    requires Valid(st) && Push(st, names, kw).Ok?
    ensures Pop(Push(st, names, kw).value).frames == st.frames
    ensures Len(Push(st, names, kw).value) == Len(st) + 1
  {
  }

  /** An assignment in a pushed scope is forgotten by the matching pop. */
  lemma ScopedSetIsUndone<E>(st: State<E>, f: Frame, name: string, v: Value)
    ensures Get(Set(PushFrame(st, f), name, v), name) == Ok(v)
    ensures Pop(Set(PushFrame(st, f), name, v)) == st
  {
    assert Set(PushFrame(st, f), name, v).frames[1..] == st.frames;
  }

  /** The behaviour the compiler relies on for `parameters`: appending in a
      pushed scope to a list the push did not copy is still visible after the
      pop, whereas appending to a copied list leaves the original untouched. */
  lemma SharedAndCopiedLists<E>(st: State<E>, copied: string, shared: string, x: E)
    requires Valid(st) && copied != shared
    requires Lookup(st.frames, copied).Some? && Lookup(st.frames, copied).value.ListV?
    requires Lookup(st.frames, shared).Some? && Lookup(st.frames, shared).value.ListV?
    ensures var a := Lookup(st.frames, copied).value.id;
      var b := Lookup(st.frames, shared).value.id;
      var pushed := Push(st, [copied], map[]).value;
      var s1 := Append(pushed, copied, x).value;
      var s2 := Append(s1, shared, x).value;
      var done := Pop(s2);
      done.frames == st.frames &&
      (a != b ==> done.store[a] == st.store[a] && done.store[b] == st.store[b] + [x])
  {
    var a := Lookup(st.frames, copied).value.id;
    var b := Lookup(st.frames, shared).value.id;
    assert FrameValid(st.frames[Depth(st.frames, copied)], |st.store|);
    assert FrameValid(st.frames[Depth(st.frames, shared)], |st.store|);
    var pushed := Push(st, [copied], map[]).value;
    PushBinding(st, [copied], map[], copied);
    PushBinding(st, [copied], map[], shared);
    var c := Lookup(pushed.frames, copied).value.id;
    assert c >= |st.store|;
    assert Lookup(pushed.frames, shared) == Some(ListV(b));
    assert pushed.store[..|st.store|] == st.store;
    assert pushed.store[a] == st.store[a] && pushed.store[b] == st.store[b];
    var s1 := Append(pushed, copied, x).value;
    assert s1.frames == pushed.frames;
    assert s1.store[a] == st.store[a] && s1.store[b] == st.store[b];
    var s2 := Append(s1, shared, x).value;
    assert s2.frames == pushed.frames;
    assert Pop(s2).frames == st.frames;
    assert s2.store[b] == s1.store[b] + [x];
  }
}
