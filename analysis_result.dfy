/**
 * The structured diagnosis returned by the image analysis (`AnalysisResult`
 * in src/utils/geminiApi.ts) and the one fixed result that stands in for
 * every failure.
 */
module AnalysisResults {
  import opened Wrappers

  /** `confidence?: number` is optional; the other five fields are declared required. */
  datatype AnalysisResult = AnalysisResult(
    disease: string,
    confidence: Option<real>,
    description: string,
    preventiveMeasures: seq<string>,
    treatment: string,
    precautions: seq<string>)

  predicate AllNonEmpty(xs: seq<string>) {
    forall i :: 0 <= i < |xs| ==> xs[i] != []
  }

  /**
   * All five required fields carry content. The code never checks this of a
   * decoded reply; it is what the fallback is built to satisfy.
   */
  predicate IsComplete(r: AnalysisResult) {
    && r.disease != [] && r.description != [] && r.treatment != []
    && r.preventiveMeasures != [] && AllNonEmpty(r.preventiveMeasures)
    && r.precautions != [] && AllNonEmpty(r.precautions)
  }

  const ErrorMarker := "Analysis Error"
  const FallbackDescription := "Unable to analyze the image. Please ensure the image is clear and try again."
  const FallbackMeasures := ["Ensure good lighting when taking photos", "Focus the camera on the affected area"]
  const FallbackTreatment := "Please try again with a clearer image or provide additional details about the crop symptoms."
  const FallbackPrecautions := ["Try different angles", "Include both healthy and affected parts in the image"]

  /**
   * The result returned from the `catch` block: the same value whatever went
   * wrong. It is complete, names the error marker as its disease, carries two
   * preventive measures and two precautions, and no confidence.
   */
  function Fallback(): (r: AnalysisResult)
    ensures r.disease == ErrorMarker && r.confidence == None
    ensures IsComplete(r)
    ensures |r.preventiveMeasures| == 2 && |r.precautions| == 2
  {
    AnalysisResult(ErrorMarker, None, FallbackDescription, FallbackMeasures, FallbackTreatment, FallbackPrecautions)
  }
}
