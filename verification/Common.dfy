/** Small vocabulary shared by the models. */
module Common {

  datatype Option<+T> = None | Some(value: T)

  function Max(a: int, b: int): int {
    if a < b then b else a
  }

  /** C and C++ integer division: truncates toward zero. */
  function TruncDiv(a: int, b: int): int
    requires b > 0
  {
    if a >= 0 then a / b else -((-a) / b)
  }

  /** C and C++ remainder: takes the sign of the dividend. */
  function TruncMod(a: int, b: int): int
    requires b > 0
  {
    a - b * TruncDiv(a, b)
  }

  /** Waking some sleepers adds them to the woken threads. */
  lemma WakeCounts<T>(woken: set<T>, sleepers: set<T>, wake: set<T>)
    requires woken !! sleepers && wake <= sleepers
    ensures |woken + wake| == |woken| + |wake| && (wake != {} ==> |wake| >= 1)
    ensures woken + wake !! sleepers - wake
  {
  }

  lemma LeaveCounts<T>(woken: set<T>, tid: T)
    ensures |woken - {tid}| >= |woken| - 1
  {
    if tid in woken {
      assert woken == (woken - {tid}) + {tid};
    } else {
      assert woken - {tid} == woken;
    }
  }
}
