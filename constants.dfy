/** The fixed data of the wellness app that its logic depends on. */
module Constants {
  /** The guide's questions, asked in order during a reflection chat. */
  const ReflectionPrompts: seq<string> := [
    "To begin, how are you feeling in this moment? Describe it in a few words.",
    "Thank you for sharing. What is one thought that has been on your mind today?",
    "What is one thing you're grateful for, no matter how small?",
    "Finally, what is a simple, kind action you can take for yourself tomorrow?"
  ]

  /** Tracking-page prefixes by carrier; the tracking number is appended. */
  const CarrierUrls: map<string, string> := map[
    "ups" := "https://www.ups.com/track?loc=en_US&tracknum=",
    "fedex" := "https://www.fedex.com/fedextrack/?trknbr=",
    "usps" := "https://tools.usps.com/go/TrackConfirmAction?tLabels="
  ]

  datatype MoodOption = MoodOption(value: int, caption: string)

  /** The five moods a check-in can record, from 1 (struggling) to 5 (excellent). */
  const MoodOptions: seq<MoodOption> := [
    MoodOption(1, "Struggling"),
    MoodOption(2, "Uneasy"),
    MoodOption(3, "Okay"),
    MoodOption(4, "Good"),
    MoodOption(5, "Excellent")
  ]

  /** The category that holds the user's own mantras. */
  const MyMantras: string := "My Mantras"
}
