/** The editor's bounded undo history, which forgets its oldest entry when it is full. */
module UndoHistory {
  const MAX_HISTORY: nat := 10

  // ----- The history as a value -----

  datatype History = History(entries: seq<string>, index: nat) {
    ghost predicate Valid() {
      index < |entries| <= MAX_HISTORY
    }
  }

  function Add(h: History, text: string): History
    requires h.Valid()
  {
    var kept := h.entries[..h.index + 1] + [text];
    if |kept| > MAX_HISTORY then History(kept[1..], h.index) else History(kept, h.index + 1)
  }

  function Undo(h: History): History {
    if h.index == 0 then h else h.(index := h.index - 1)
  }

  function Redo(h: History): History {
    if h.index + 1 >= |h.entries| then h else h.(index := h.index + 1)
  }

  /** The history with the text on display. */
  datatype Shown = Shown(h: History, text: string)

  function UndoShown(s: Shown): Shown
    requires s.h.Valid()
  {
    if s.h.index == 0 then s else Shown(Undo(s.h), s.h.entries[s.h.index - 1])
  }

  function RedoShown(s: Shown): Shown
    requires s.h.Valid()
  {
    if s.h.index + 1 == |s.h.entries| then s else Shown(Redo(s.h), s.h.entries[s.h.index + 1])
  }

  /** The cursor's place as far as the text reaches. */
  function Clamp(cursor: nat, text: string): (r: nat)
    ensures r <= cursor && r <= |text| && (r == cursor || r == |text|)
  {
    if cursor < |text| then cursor else |text|
  }

  // ----- The editor object -----

  class Editor {
    var history: seq<string>
    var currentIndex: int
    var isUndoRedo: bool
    var value: string
    var selectionStart: nat
    var selectionEnd: nat

    ghost predicate Valid()
      reads this
    {
      0 <= currentIndex < |history| <= MAX_HISTORY
    }

    ghost function Log(): History
      requires Valid()
      reads this
    {
      History(history, currentIndex)
    }

    ghost function Display(): Shown
      requires Valid()
      reads this
    {
      Shown(Log(), value)
    }

    constructor (text: string)
      ensures Valid() && !isUndoRedo
      ensures value == text && Log() == History([text], 0)
    {
      history, currentIndex, isUndoRedo := [text], 0, false;
      value, selectionStart, selectionEnd := text, 0, 0;
    }

    /** Shows the current entry; the cursor keeps its place as far as the text reaches. */
    method RestoreState()
      requires Valid()
      modifies this
      ensures Valid() && Log() == old(Log()) && !isUndoRedo
      ensures value == history[currentIndex]
      ensures selectionStart == selectionEnd == Clamp(old(selectionStart), value)
    {
      isUndoRedo := true;
      var cursorPos := selectionStart;
      value := history[currentIndex];
      var newPos := if cursorPos <= |value| then cursorPos else |value|;
      selectionStart, selectionEnd := newPos, newPos;
      isUndoRedo := false;
    }

    method UndoEntry()
      requires Valid()
      modifies this
      ensures Valid() && Display() == UndoShown(old(Display()))
      ensures history == old(history)
      ensures old(currentIndex) == 0 ==> currentIndex == 0 && value == old(value)
      ensures old(currentIndex) > 0 ==> currentIndex == old(currentIndex) - 1 && value == history[currentIndex]
      ensures old(currentIndex) == 0 ==>
                && isUndoRedo == old(isUndoRedo)
                && selectionStart == old(selectionStart) && selectionEnd == old(selectionEnd)
      ensures old(currentIndex) > 0 ==>
                && !isUndoRedo
                && selectionStart == selectionEnd == Clamp(old(selectionStart), value)
    {
      if currentIndex <= 0 {
        return;
      }
      currentIndex := currentIndex - 1;
      RestoreState();
    }

    method RedoEntry()
      requires Valid()
      modifies this
      ensures Valid() && Display() == RedoShown(old(Display()))
      ensures history == old(history)
      ensures old(currentIndex) + 1 == |history| ==> currentIndex == old(currentIndex) && value == old(value)
      ensures old(currentIndex) + 1 < |history| ==>
                currentIndex == old(currentIndex) + 1 && value == history[currentIndex]
      ensures old(currentIndex) + 1 == |history| ==>
                && isUndoRedo == old(isUndoRedo)
                && selectionStart == old(selectionStart) && selectionEnd == old(selectionEnd)
      ensures old(currentIndex) + 1 < |history| ==>
                && !isUndoRedo
                && selectionStart == selectionEnd == Clamp(old(selectionStart), value)
    {
      if currentIndex == |history| - 1 {
        return;
      }
      currentIndex := currentIndex + 1;
      RestoreState();
    }

    method AddHistoryEntry()
      requires Valid()
      modifies this`history, this`currentIndex
      ensures Valid()
      ensures Log() == if isUndoRedo then old(Log()) else Add(old(Log()), value)
      ensures isUndoRedo ==> history == old(history) && currentIndex == old(currentIndex)
      ensures !isUndoRedo ==>
                var kept := old(history)[..old(currentIndex) + 1] + [value];
                history == if |kept| <= 10 then kept else kept[|kept| - 10..]
      ensures !isUndoRedo ==> history[currentIndex] == value && currentIndex == |history| - 1
    {
      if isUndoRedo {
        return;
      }
      history := history[..currentIndex + 1];
      history := history + [value];
      currentIndex := currentIndex + 1;
      if |history| > MAX_HISTORY {
        history := history[1..];
        currentIndex := currentIndex - 1;
      }
    }
  }

  // ----- Against an undo list without a bound -----

  /** The textbook undo list: it forgets nothing but the redo tail. */
  datatype Plain = Plain(list: seq<string>, index: nat) {
    ghost predicate Valid() {
      index < |list|
    }
  }

  datatype Op = AddOp(text: string) | UndoOp | RedoOp

  function ApplyPlain(u: Plain, op: Op): (r: Plain)
    requires u.Valid()
    ensures r.Valid()
  {
    match op
    case AddOp(text) => Plain(u.list[..u.index + 1] + [text], u.index + 1)
    case UndoOp => if u.index == 0 then u else u.(index := u.index - 1)
    case RedoOp => if u.index + 1 == |u.list| then u else u.(index := u.index + 1)
  }

  function Apply(h: History, op: Op): (r: History)
    requires h.Valid()
    ensures r.Valid()
  {
    match op
    case AddOp(text) => Add(h, text)
    case UndoOp => Undo(h)
    case RedoOp => Redo(h)
  }

  /** The operation makes the history drop its oldest entry. */
  predicate Evicts(h: History, op: Op) {
    op.AddOp? && h.index + 2 > MAX_HISTORY
  }

  // A fresh editor, the plain list beside it, and the evictions so far, after some operations.

  function HistoryAfter(text: string, ops: seq<Op>): (h: History)
    ensures h.Valid()
  {
    if ops == [] then History([text], 0) else Apply(HistoryAfter(text, ops[..|ops| - 1]), ops[|ops| - 1])
  }

  function PlainAfter(text: string, ops: seq<Op>): (u: Plain)
    ensures u.Valid()
  {
    if ops == [] then Plain([text], 0) else ApplyPlain(PlainAfter(text, ops[..|ops| - 1]), ops[|ops| - 1])
  }

  function Evictions(text: string, ops: seq<Op>): nat {
    if ops == [] then 0
    else
      var before := ops[..|ops| - 1];
      Evictions(text, before) + if Evicts(HistoryAfter(text, before), ops[|ops| - 1]) then 1 else 0
  }

  /** The history is the plain list without its evicted entries, both at the same entry. */
  ghost predicate InStep(h: History, evicted: nat, u: Plain) {
    evicted <= |u.list| && h.entries == u.list[evicted..] && h.index + evicted == u.index
  }

  ghost predicate InStepAfter(text: string, ops: seq<Op>) {
    InStep(HistoryAfter(text, ops), Evictions(text, ops), PlainAfter(text, ops))
  }

  /** An undo that reaches for an evicted entry. */
  predicate ReachesEvicted(h: History, evicted: nat, op: Op) {
    op == UndoOp && h.index == 0 && evicted > 0
  }

  lemma AddKeepsInStep(h: History, evicted: nat, u: Plain, text: string)
    requires h.Valid() && u.Valid() && InStep(h, evicted, u)
    ensures InStep(Add(h, text), evicted + if Evicts(h, AddOp(text)) then 1 else 0, ApplyPlain(u, AddOp(text)))
  {
    var list := u.list[..u.index + 1] + [text];
    assert h.entries[..h.index + 1] + [text] == list[evicted..];
    assert list[evicted..][1..] == list[evicted + 1..];
  }

  /** One operation keeps editor and list in step exactly if it is no such undo. */
  lemma StaysInStepIff(h: History, evicted: nat, u: Plain, op: Op)
    requires h.Valid() && u.Valid() && InStep(h, evicted, u)
    ensures InStep(Apply(h, op), evicted + if Evicts(h, op) then 1 else 0, ApplyPlain(u, op)) <==>
            !ReachesEvicted(h, evicted, op)
  {
    if op.AddOp? {
      AddKeepsInStep(h, evicted, u, op.text);
    }
  }

  /** The operation after the first n is such an undo. */
  ghost predicate LostUndoAt(text: string, ops: seq<Op>, n: nat)
    requires n < |ops|
  {
    ReachesEvicted(HistoryAfter(text, ops[..n]), Evictions(text, ops[..n]), ops[n])
  }

  lemma InStepNextIff(text: string, ops: seq<Op>, n: nat)
    requires n < |ops| && InStepAfter(text, ops[..n])
    ensures InStepAfter(text, ops[..n + 1]) <==> !LostUndoAt(text, ops, n)
  {
    assert ops[..n + 1][..n] == ops[..n];
    StaysInStepIff(HistoryAfter(text, ops[..n]), Evictions(text, ops[..n]), PlainAfter(text, ops[..n]), ops[n]);
  }

  lemma {:induction false} InStepUntilLost(text: string, ops: seq<Op>, n: nat)
    requires n <= |ops| && forall m :: 0 <= m < n ==> !LostUndoAt(text, ops, m)
    ensures InStepAfter(text, ops[..n])
  {
    if n > 0 {
      InStepUntilLost(text, ops, n - 1);
      InStepNextIff(text, ops, n - 1);
    }
  }

  /** The bounded history is the plain undo list throughout a run, entry by entry, if and only if
      no undo of the run reaches for an evicted entry. */
  lemma EditorRefinesUnboundedUndo(text: string, ops: seq<Op>)
    ensures (forall n :: 0 <= n <= |ops| ==> InStepAfter(text, ops[..n])) <==>
            (forall n :: 0 <= n < |ops| ==> !LostUndoAt(text, ops, n))
  {
    if forall n :: 0 <= n <= |ops| ==> InStepAfter(text, ops[..n]) {
      forall n | 0 <= n < |ops|
        ensures !LostUndoAt(text, ops, n)
      {
        assert InStepAfter(text, ops[..n + 1]);
        InStepNextIff(text, ops, n);
      }
    }
    if forall n :: 0 <= n < |ops| ==> !LostUndoAt(text, ops, n) {
      forall n | 0 <= n <= |ops|
        ensures InStepAfter(text, ops[..n])
      {
        InStepUntilLost(text, ops, n);
      }
    }
  }

  /** Until then both show the same text. At the first undo that reaches for an evicted entry the
      editor stays where it is, at its oldest entry, and the list goes back one further. */
  lemma FirstLostUndo(text: string, ops: seq<Op>, n: nat)
    requires n < |ops| && forall m :: 0 <= m < n ==> !LostUndoAt(text, ops, m)
    ensures var h, u, evicted := HistoryAfter(text, ops[..n]), PlainAfter(text, ops[..n]), Evictions(text, ops[..n]);
            var h', u' := HistoryAfter(text, ops[..n + 1]), PlainAfter(text, ops[..n + 1]);
            && h.entries[h.index] == u.list[u.index]
            && (LostUndoAt(text, ops, n) ==>
                  h.index == 0 && u.index == evicted && h' == h && u' == Plain(u.list, evicted - 1))
  {
    InStepUntilLost(text, ops, n);
    assert ops[..n + 1][..n] == ops[..n];
  }

  // ----- The object's calls are such a run -----

  /** One of the three calls; an entry is added for the text then in the textarea. */
  method Perform(editor: Editor, op: Op)
    requires editor.Valid() && !editor.isUndoRedo && editor.value == editor.history[editor.currentIndex]
    modifies editor
    ensures editor.Valid() && !editor.isUndoRedo
    ensures editor.Log() == Apply(old(editor.Log()), op) && editor.value == editor.history[editor.currentIndex]
  {
    match op
    case AddOp(text) =>
      editor.value := text;
      editor.AddHistoryEntry();
    case UndoOp => editor.UndoEntry();
    case RedoOp => editor.RedoEntry();
  }

  /** An editor on which some calls have been made has the history the theorems speak of, and shows
      its current entry. */
  method PerformAll(text: string, ops: seq<Op>) returns (editor: Editor)
    ensures fresh(editor) && editor.Valid()
    ensures editor.Log() == HistoryAfter(text, ops)
    ensures editor.value == editor.history[editor.currentIndex]
  {
    editor := new Editor(text);
    for i := 0 to |ops|
      invariant fresh(editor) && editor.Valid() && !editor.isUndoRedo
      invariant editor.Log() == HistoryAfter(text, ops[..i])
      invariant editor.value == editor.history[editor.currentIndex]
    {
      assert ops[..i + 1][..i] == ops[..i];
      Perform(editor, ops[i]);
    }
    assert ops[..|ops|] == ops;
  }

  // ----- How far back undo reaches -----

  function Adds(texts: seq<string>): (ops: seq<Op>)
    ensures |ops| == |texts|
  {
    if texts == [] then [] else Adds(texts[..|texts| - 1]) + [AddOp(texts[|texts| - 1])]
  }

  function UndoOps(k: nat): (ops: seq<Op>)
    ensures |ops| == k
  {
    if k == 0 then [] else UndoOps(k - 1) + [UndoOp]
  }

  lemma AfterAdds(text: string, texts: seq<string>)
    requires texts != []
    ensures var n := |texts| - 1;
            && HistoryAfter(text, Adds(texts)) == Add(HistoryAfter(text, Adds(texts[..n])), texts[n])
            && PlainAfter(text, Adds(texts)) == ApplyPlain(PlainAfter(text, Adds(texts[..n])), AddOp(texts[n]))
  {
    var n := |texts| - 1;
    assert Adds(texts)[..n] == Adds(texts[..n]);
  }

  function LastEntries(all: seq<string>): seq<string> {
    if |all| <= MAX_HISTORY then all else all[|all| - MAX_HISTORY..]
  }

  /** The history at the newest of them. */
  function AtNewest(all: seq<string>): (h: History)
    requires all != []
    ensures h.Valid()
  {
    History(LastEntries(all), |LastEntries(all)| - 1)
  }

  lemma AddAtNewest(all: seq<string>, text: string)
    requires all != []
    ensures Add(AtNewest(all), text) == AtNewest(all + [text])
  {
    var kept := LastEntries(all);
    assert kept[..|kept|] + [text] == kept + [text];
    if |all| >= MAX_HISTORY {
      assert (kept + [text])[1..] == LastEntries(all + [text]);
    }
  }

  lemma OneMoreEntry(all: seq<string>, h: History, text: string, h': History, all': seq<string>)
    requires all != [] && h == AtNewest(all) && h' == Add(h, text) && all' == all + [text]
    ensures h' == AtNewest(all')
  {
    AddAtNewest(all, text);
  }

  /** Typing leaves the last MAX_HISTORY texts. */
  lemma {:induction false} KeepsLastEntries(text: string, texts: seq<string>)
    ensures HistoryAfter(text, Adds(texts)) == AtNewest([text] + texts)
    decreases |texts|
  {
    var h := HistoryAfter(text, Adds(texts));
    if texts == [] {
      assert [text] + texts == [text];
    } else {
      var before, last := texts[..|texts| - 1], texts[|texts| - 1];
      KeepsLastEntries(text, before);
      AfterAdds(text, texts);
      assert [text] + texts == [text] + before + [last];
      OneMoreEntry([text] + before, HistoryAfter(text, Adds(before)), last, h, [text] + texts);
    }
  }

  lemma {:induction false} UndosAfter(text: string, ops: seq<Op>, k: nat)
    ensures var h := HistoryAfter(text, ops);
            HistoryAfter(text, ops + UndoOps(k)) == History(h.entries, if k <= h.index then h.index - k else 0)
    ensures var u := PlainAfter(text, ops);
            PlainAfter(text, ops + UndoOps(k)) == Plain(u.list, if k <= u.index then u.index - k else 0)
  {
    if k == 0 {
      assert ops + UndoOps(0) == ops;
    } else {
      UndosAfter(text, ops, k - 1);
      var all := ops + UndoOps(k);
      assert all[..|all| - 1] == ops + UndoOps(k - 1);
    }
  }

  lemma {:induction false} PlainKeepsAll(text: string, texts: seq<string>)
    ensures PlainAfter(text, Adds(texts)) == Plain([text] + texts, |texts|)
    decreases |texts|
  {
    if texts == [] {
    } else {
      var n := |texts| - 1;
      PlainKeepsAll(text, texts[..n]);
      AfterAdds(text, texts);
      assert [text] + texts == [text] + texts[..n] + [texts[n]];
    }
  }

  /** After as many undos as texts typed the list is back at the first text; the editor is, by
      position, exactly if fewer than MAX_HISTORY had been typed. */
  lemma UndoReachesBack(text: string, texts: seq<string>)
    ensures PlainAfter(text, Adds(texts) + UndoOps(|texts|)) == Plain([text] + texts, 0)
    ensures var kept := LastEntries([text] + texts);
            HistoryAfter(text, Adds(texts) + UndoOps(|texts|)) == History(kept, 0)
    ensures |LastEntries([text] + texts)| == |[text] + texts| <==> |texts| < MAX_HISTORY
  {
    KeepsLastEntries(text, texts);
    PlainKeepsAll(text, texts);
    UndosAfter(text, Adds(texts), |texts|);
  }

  // ----- Undo and redo cancel -----

  function Undos(s: Shown, k: nat): (r: Shown)
    requires s.h.Valid()
    ensures r.h.Valid() && r.h.entries == s.h.entries
    decreases k
  {
    if k == 0 then s else Undos(UndoShown(s), k - 1)
  }

  function Redos(s: Shown, k: nat): (r: Shown)
    requires s.h.Valid()
    ensures r.h.Valid() && r.h.entries == s.h.entries
    decreases k
  {
    if k == 0 then s else Redos(RedoShown(s), k - 1)
  }

  lemma {:induction false} UndosMove(s: Shown, k: nat)
    requires s.h.Valid() && k <= s.h.index
    ensures Undos(s, k) == if k == 0 then s else Shown(History(s.h.entries, s.h.index - k), s.h.entries[s.h.index - k])
    decreases k
  {
    if k > 0 {
      UndosMove(UndoShown(s), k - 1);
    }
  }

  lemma {:induction false} RedosMove(s: Shown, k: nat)
    requires s.h.Valid() && s.h.index + k < |s.h.entries|
    ensures Redos(s, k) == if k == 0 then s else Shown(History(s.h.entries, s.h.index + k), s.h.entries[s.h.index + k])
    decreases k
  {
    if k > 0 {
      RedosMove(RedoShown(s), k - 1);
    }
  }

  /** k possible undos followed by k redos restore the history, and the text too if and only if
      it had been recorded: text typed since the last entry is lost. */
  lemma UndosThenRedos(s: Shown, k: nat)
    requires s.h.Valid() && 0 < k <= s.h.index
    ensures Redos(Undos(s, k), k) == Shown(s.h, s.h.entries[s.h.index])
    ensures Redos(Undos(s, k), k) == s <==> s.text == s.h.entries[s.h.index]
  {
    UndosMove(s, k);
    RedosMove(Undos(s, k), k);
  }

  /** The other way round the history is restored as well, and the current entry is shown. */
  lemma RedosThenUndos(s: Shown, k: nat)
    requires s.h.Valid() && 0 < k < |s.h.entries| - s.h.index
    ensures Undos(Redos(s, k), k) == Shown(s.h, s.h.entries[s.h.index])
  {
    RedosMove(s, k);
    UndosMove(Redos(s, k), k);
  }
}
