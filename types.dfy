/**
 * The records of the wellness app. Calendar dates are whole day numbers;
 * a stored `YYYY-MM-DD` string becomes the day it names.
 */
module Types {
  import opened Wrappers

  datatype TrackingInfo = TrackingInfo(carrier: string, trackingNumber: string)

  datatype Sender = Guide | User

  datatype ChatMessage = ChatMessage(sender: Sender, text: string)

  /** A saved reflection; `chatHistory` is absent for reflections written before chats existed. */
  datatype ReflectionEntry = ReflectionEntry(id: int, timestamp: string, text: string,
                                             chatHistory: Option<seq<ChatMessage>>)

  /** One day's check-in: a mood from 1 to 5, the chosen tags and an intention. */
  datatype MoodLog = MoodLog(date: int, mood: int, tags: seq<string>, intention: string)

  type MantrasByCategory = map<string, seq<string>>

  /** The four activities a day can record. */
  datatype Activity = Meditation | Breathing | Mantras | Reflections

  datatype DailyActivities = DailyActivities(date: int, meditation: bool, breathing: bool,
                                             mantras: bool, reflections: bool)
  {
    /** The flag of one activity. */
    function Done(a: Activity): bool {
      match a
      case Meditation => meditation
      case Breathing => breathing
      case Mantras => mantras
      case Reflections => reflections
    }
  }
}
