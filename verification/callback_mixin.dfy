/** The callback registry (alns/CallbackMixin.py, alns/CallbackFlag.py): a
    map from event flag to callback. The callback type is a parameter. */
module CallbackMixin {

  /** The one event a callback can be registered for. */
  datatype Flag = OnBest

  datatype Mixin<F> = Mixin(callbacks: map<Flag, F>)

  function New<F>(): (r: Mixin<F>)
    ensures forall flag: Flag :: !HasCallback(r, flag)
  {
    Mixin(map[])
  }

  /** Registers `f` for new best solutions, replacing any earlier one
      without complaint. */
  function OnBestSet<F>(m: Mixin<F>, f: F): (r: Mixin<F>)
    ensures OnBest in r.callbacks && r.callbacks[OnBest] == f
    ensures r.callbacks.Keys == m.callbacks.Keys + {OnBest}
  {
    Mixin(m.callbacks[OnBest := f])
  }

  predicate HasCallback<F>(m: Mixin<F>, flag: Flag) {
    flag in m.callbacks
  }

  /** Only defined for a flag that has a callback: the source's lookup
      raises otherwise. Registering the callback it returns again changes
      nothing. */
  function Callback<F>(m: Mixin<F>, flag: Flag): (r: F)
    requires HasCallback(m, flag)
    ensures Mixin(m.callbacks[flag := r]) == m
  {
    assert m.callbacks[flag := m.callbacks[flag]] == m.callbacks;
    m.callbacks[flag]
  }

  /** After registering `f`, the registry reports a callback for new best
      solutions and hands back `f`. */
  lemma RegisteredIsReturned<F>(m: Mixin<F>, f: F)
    ensures HasCallback(OnBestSet(m, f), OnBest)
    ensures Callback(OnBestSet(m, f), OnBest) == f
  {
  }

  /** A second registration replaces the first: only the last one is
      kept, and the registry does not grow. */
  lemma SecondReplacesFirst<F>(m: Mixin<F>, f: F, g: F)
    ensures Callback(OnBestSet(OnBestSet(m, f), g), OnBest) == g
    ensures OnBestSet(OnBestSet(m, f), g) == OnBestSet(m, g)
    ensures |OnBestSet(OnBestSet(m, f), g).callbacks| == |OnBestSet(m, f).callbacks|
  {
  }
}
