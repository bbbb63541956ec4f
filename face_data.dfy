/** The emotion snapshot produced by the face-detection collaborator: one
    intensity per supported label, the dominant label and its confidence.
    Intensities are reals in place of JavaScript numbers. */
module FaceSignal {

  datatype EmotionData = EmotionData(
    neutral: real, happy: real, sad: real, angry: real,
    fearful: real, disgusted: real, surprised: real)

  datatype FaceData = FaceData(
    emotions: EmotionData,
    dominantEmotion: string,
    confidence: real,
    detectionTime: int)
}
