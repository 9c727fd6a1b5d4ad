/** One operation running alone against a store whose calls may fail, with or without having taken effect. */
module Faults {
  import opened Protocol
  import opened Solo

  function FaultyMove(x: Config, ch: Choice): Config {
    var (e, p) := Plan(x.core, x.proc, ch);
    Config(Apply(x.core, e), p)
  }

  /** The operation after some steps, the environment deciding each as listed. */
  function Faulty(x: Config, choices: seq<Choice>): Config {
    if choices == [] then x
    else FaultyMove(Faulty(x, choices[..|choices| - 1]), choices[|choices| - 1])
  }
}
