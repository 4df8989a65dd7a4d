/** The static configuration record of the backend. */
module Config {

  /** `Config.available_models`: the names the pipeline tries to load, in this order. */
  const AvailableModels: seq<string> := ["SVM", "Naive_Bayes", "Random_Forest", "Logistic_Regression"]
}
