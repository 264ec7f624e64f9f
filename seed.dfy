/** The sample catalog the store writes when it finds no catalog stored. */
module Seed {
  import opened Records

  /** The three sample projects written into a storage area that has no catalog yet. */
  function SeedProjects(): (r: seq<Project>)
    ensures |r| == 3
    ensures r[0].id == "1" && r[1].id == "2" && r[2].id == "3"
    ensures forall p :: p in r ==> WithinCapacity(p)
  {
    [GardenCleanup, FoodBank, YouthMentorship]
  }

  const GardenCleanup := Project("1", "Community Garden Cleanup",
    "Help us maintain and beautify our local community garden. Activities include weeding, planting, and general maintenance.",
    "Environment", "Central Park Community Garden", "3 hours", 12, 20, "2025-11-05", Active,
    "Green Earth Initiative", ["Physical fitness", "Outdoor work experience"],
    "https://images.unsplash.com/photo-1464226184884-fa280b87c399?w=800")

  const FoodBank := Project("2", "Food Bank Distribution",
    "Assist with sorting, packing, and distributing food to families in need.",
    "Community", "City Food Bank", "4 hours", 8, 15, "2025-11-08", Active,
    "Helping Hands", ["Lifting capability", "Team player"],
    "https://images.unsplash.com/photo-1593113598332-cd288d649433?w=800")

  const YouthMentorship := Project("3", "Youth Mentorship Program",
    "Mentor young students in academics, career planning, and personal development.",
    "Education", "Lincoln High School", "Ongoing", 15, 25, "2025-11-12", Upcoming,
    "Future Leaders", ["Background check", "Communication skills"],
    "https://images.unsplash.com/photo-1503676260728-1c00da094a0b?w=800")
}
