/** The classification record shared by the ranker and the comparator. */
module Inference {

  /** One entry of a ranked classification: the class id, its probability
      and the human-readable label of that class. Probabilities are modelled
      as reals (the original stores 32-bit floats); a real cannot be NaN. */
  datatype InferenceResult = InferenceResult(index: nat, probability: real, classLabel: string)
}
